/** Cutting the QMP byte stream into messages: one per line, however the stream arrives in chunks. */
module QmpFraming {
  import opened JsText

  const Newline: char := '\n'

  /** What is left of a line after trimming is a message unless it is empty. */
  function Messages(lines: seq<string>): seq<string> {
    if lines == [] then []
    else
      var line := Trim(lines[|lines| - 1]);
      Messages(lines[..|lines| - 1]) + if line == "" then [] else [line]
  }

  /** The complete lines of a text: all parts between newlines but the last. */
  function CompleteLines(text: string): seq<string> {
    var parts := Split(text, Newline);
    parts[..|parts| - 1]
  }

  /** The text after the last newline. */
  function Remainder(text: string): string {
    var parts := Split(text, Newline);
    parts[|parts| - 1]
  }

  /** The buffer and the messages delivered so far. */
  datatype Stream = Stream(buffer: string, delivered: seq<string>)

  function Receive(s: Stream, data: string): Stream {
    Stream(Remainder(s.buffer + data), s.delivered + Messages(CompleteLines(s.buffer + data)))
  }

  function ReceiveAll(s: Stream, chunks: seq<string>): Stream {
    if chunks == [] then s else Receive(ReceiveAll(s, chunks[..|chunks| - 1]), chunks[|chunks| - 1])
  }

  function Concat(chunks: seq<string>): string {
    if chunks == [] then "" else Concat(chunks[..|chunks| - 1]) + chunks[|chunks| - 1]
  }

  function IndexOf(s: string, c: char): (i: int)
    ensures -1 <= i < |s|
    ensures i == -1 <==> c !in s
    ensures i >= 0 ==> s[i] == c && c !in s[..i]
  {
    if s == "" then -1
    else if s[0] == c then 0
    else
      var i := IndexOf(s[1..], c);
      assert c in s <==> c in s[1..];
      if i == -1 then -1 else
        assert s[..i + 1] == [s[0]] + s[1..][..i];
        i + 1
  }

  class LineReader {
    var buffer: string
    var delivered: seq<string>

    constructor ()
      ensures Snapshot() == Stream("", [])
    {
      buffer, delivered := "", [];
    }

    function Snapshot(): Stream
      reads this
    {
      Stream(buffer, delivered)
    }

    /** Appends a chunk and delivers every line it completes. */
    method HandleData(data: string)
      modifies this
      ensures Snapshot() == Receive(old(Snapshot()), data)
    {
      hide Trim, Split, Messages;
      ghost var before := delivered;
      buffer := buffer + data;
      ghost var text := buffer;
      ghost var done: seq<string> := [];
      NoMessages();
      var newlineIndex := IndexOf(buffer, Newline);
      while newlineIndex != -1
        invariant newlineIndex == IndexOf(buffer, Newline)
        invariant Split(text, Newline) == done + Split(buffer, Newline)
        invariant delivered == before + Messages(done)
        decreases |buffer|
      {
        var line := Trim(buffer[..newlineIndex]);
        ghost var head := buffer[..newlineIndex];
        TakeLine(text, buffer, newlineIndex, done);
        buffer := buffer[newlineIndex + 1..];
        OneMore(done, head);
        done := done + [head];
        if |line| != 0 {
          delivered := delivered + [line];
        }
        newlineIndex := IndexOf(buffer, Newline);
      }
      LastPart(text, buffer, done);
    }
  }

  lemma NoMessages()
    ensures Messages([]) == []
  {
  }

  lemma OneMore(lines: seq<string>, line: string)
    ensures Messages(lines + [line]) == Messages(lines) + if Trim(line) == "" then [] else [Trim(line)]
  {
    assert (lines + [line])[..|lines|] == lines;
  }

  lemma TakeLine(text: string, buffer: string, i: nat, done: seq<string>)
    requires i < |buffer| && buffer[i] == Newline && Newline !in buffer[..i]
    requires Split(text, Newline) == done + Split(buffer, Newline)
    ensures Split(text, Newline) == done + [buffer[..i]] + Split(buffer[i + 1..], Newline)
  {
    hide Split;
    assert buffer == buffer[..i] + [Newline] + buffer[i + 1..];
    SplitAtSep(buffer[..i], buffer[i + 1..], Newline);
  }

  lemma LastPart(text: string, buffer: string, done: seq<string>)
    requires Newline !in buffer && Split(text, Newline) == done + Split(buffer, Newline)
    ensures CompleteLines(text) == done && Remainder(text) == buffer
  {
    SplitNoSep(buffer, Newline);
    hide Split;
  }

  // ----- chunking -----

  /** One more character in front of a split text. */
  function Prefixed(c: char, parts: seq<string>, sep: char): seq<string>
    requires parts != []
  {
    if c == sep then [""] + parts else [[c] + parts[0]] + parts[1..]
  }

  lemma SplitCons(c: char, s: string, sep: char)
    ensures Split([c] + s, sep) == Prefixed(c, Split(s, sep), sep)
  {
    assert ([c] + s)[1..] == s;
  }

  /** A longer text: the last part of the first piece runs on into the second. */
  lemma {:induction false} SplitLonger(a: string, b: string, sep: char)
    ensures var parts := Split(a, sep); var n := |parts| - 1;
      Split(a + b, sep) == parts[..n] + Split(parts[n] + b, sep)
  {
    if a == "" {
      assert a + b == b && "" + b == b;
    } else {
      SplitLonger(a[1..], b, sep);
      assert a == [a[0]] + a[1..] && a + b == [a[0]] + (a[1..] + b);
      SplitCons(a[0], a[1..], sep);
      SplitCons(a[0], a[1..] + b, sep);
      var rest := Split(a[1..], sep);
      hide Split;
      if a[0] != sep && |rest| == 1 {
        LongerFirst(a[0], rest, b, sep);
      } else {
        PrefixedConcat(a[0], rest, Split(rest[|rest| - 1] + b, sep), sep);
        hide Prefixed;
      }
    }
  }

  /** With a single part so far the new text goes on in it. */
  lemma LongerFirst(c: char, rest: seq<string>, b: string, sep: char)
    requires c != sep && |rest| == 1
    ensures var parts := Prefixed(c, rest, sep);
      |parts| == 1 && Prefixed(c, rest[..0] + Split(rest[0] + b, sep), sep) == parts[..0] + Split(parts[0] + b, sep)
  {
    SplitCons(c, rest[0] + b, sep);
    hide Split;
    assert [c] + (rest[0] + b) == [c] + rest[0] + b;
    assert rest[..0] + Split(rest[0] + b, sep) == Split(rest[0] + b, sep);
  }

  lemma PrefixedConcat(c: char, rest: seq<string>, tail: seq<string>, sep: char)
    requires rest != [] && tail != [] && (c == sep || |rest| > 1)
    ensures var parts := Prefixed(c, rest, sep); var n := |parts| - 1;
      && Prefixed(c, rest[..|rest| - 1] + tail, sep) == parts[..n] + tail && parts[n] == rest[|rest| - 1]
  {
    var k := |rest| - 1;
    if c != sep {
      assert (rest[..k] + tail)[1..] == rest[1..k] + tail;
    }
  }

  lemma {:induction false} MessagesConcat(a: seq<string>, b: seq<string>)
    ensures Messages(a + b) == Messages(a) + Messages(b)
  {
    hide Trim;
    if b == [] {
      assert a + b == a;
    } else {
      var n := |b| - 1;
      assert a + b == a + b[..n] + [b[n]] && b == b[..n] + [b[n]];
      MessagesConcat(a, b[..n]);
      OneMore(a + b[..n], b[n]);
      OneMore(b[..n], b[n]);
    }
  }

  lemma CutConcat(text: string, y: string)
    ensures CompleteLines(text + y) == CompleteLines(text) + CompleteLines(Remainder(text) + y)
    ensures Remainder(text + y) == Remainder(Remainder(text) + y)
  {
    SplitLonger(text, y, Newline);
    var parts, tail, whole := CompleteLines(text), Split(Remainder(text) + y, Newline), Split(text + y, Newline);
    assert whole == parts + tail;
    hide Split;
    assert whole[..|whole| - 1] == parts + tail[..|tail| - 1];
  }

  /** Two chunks one after the other are received like their concatenation. */
  lemma ReceiveTwice(s: Stream, x: string, y: string)
    ensures Receive(Receive(s, x), y) == Receive(s, x + y)
  {
    hide CompleteLines, Remainder, Messages;
    var text := s.buffer + x;
    assert s.buffer + (x + y) == text + y;
    CutConcat(text, y);
    MessagesConcat(CompleteLines(text), CompleteLines(Remainder(text) + y));
  }

  /** However a stream is cut, the messages are its complete lines in order and the buffer is what follows. */
  lemma {:induction false} ChunkingDoesNotMatter(chunks: seq<string>)
    ensures ReceiveAll(Stream("", []), chunks) == Stream(Remainder(Concat(chunks)), Messages(CompleteLines(Concat(chunks))))
  {
    var start := Stream("", []);
    if chunks == [] {
      SplitNoSep("", Newline);
    } else {
      var n := |chunks| - 1;
      ChunkingDoesNotMatter(chunks[..n]);
      FromStart(Concat(chunks[..n]));
      FromStart(Concat(chunks));
      ReceiveTwice(start, Concat(chunks[..n]), chunks[n]);
    }
  }

  lemma FromStart(text: string)
    ensures Receive(Stream("", []), text) == Stream(Remainder(text), Messages(CompleteLines(text)))
  {
    hide Split, Messages;
    assert "" + text == text;
    assert [] + Messages(CompleteLines(text)) == Messages(CompleteLines(text));
  }

  /**
   Lines of visible text, sent one after the other with line feeds between them and cut in any way, arrive as
   these lines in order; what follows the last line feed waits in the buffer.
   */
  lemma LinesArrive(lines: seq<string>, rest: string, chunks: seq<string>)
    requires Concat(chunks) == Join(lines + [rest], "\n")
    requires '\n' !in rest
    requires forall i :: 0 <= i < |lines| ==> '\n' !in lines[i] && lines[i] != "" && !IsSpace(lines[i][0]) && !IsSpace(lines[i][|lines[i]| - 1])
    ensures ReceiveAll(Stream("", []), chunks) == Stream(rest, lines)
  {
    var parts := lines + [rest];
    assert forall i :: 0 <= i < |parts| ==> '\n' !in parts[i];
    assert ['\n'] == "\n";
    SplitJoin(parts, '\n');
    ChunkingDoesNotMatter(chunks);
    VisibleLines(lines);
    hide Split, Join, Messages, ReceiveAll;
    assert parts[..|parts| - 1] == lines;
  }

  lemma {:induction false} VisibleLines(lines: seq<string>)
    requires forall i :: 0 <= i < |lines| ==> lines[i] != "" && !IsSpace(lines[i][0]) && !IsSpace(lines[i][|lines[i]| - 1])
    ensures Messages(lines) == lines
  {
    hide IsSpace, Trim, Messages;
    if lines == [] {
      NoMessages();
    } else {
      var n := |lines| - 1;
      VisibleLines(lines[..n]);
      TrimVisible(lines[n]);
      OneMore(lines[..n], lines[n]);
      assert lines == lines[..n] + [lines[n]];
    }
  }
}
