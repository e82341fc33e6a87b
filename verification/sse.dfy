/** Server-sent event framing as index.js writes it (`data: <json>\n\n`), and
    the data a client reads back from such a stream, following the event stream
    interpretation of section 9.2.6 of the HTML Living Standard restricted to
    the `data` field. */
module Sse {

  predicate IsLineBreak(c: char) {
    c == '\n' || c == '\r'
  }

  predicate SingleLine(s: string) {
    forall i :: 0 <= i < |s| ==> !IsLineBreak(s[i])
  }

  /** One event as index.js writes it. */
  function Frame(data: string): string {
    "data: " + data + "\n\n"
  }

  /** Position of the first line break, or `|s|` when there is none. */
  function LineEnd(s: string): (k: nat)
    ensures k <= |s|
    ensures forall i :: 0 <= i < k ==> !IsLineBreak(s[i])
    ensures k < |s| ==> IsLineBreak(s[k])
  {
    if |s| == 0 || IsLineBreak(s[0]) then 0 else 1 + LineEnd(s[1..])
  }

  /** Position of the first ':', or `|s|` when there is none. */
  function ColonAt(s: string): (k: nat)
    ensures k <= |s|
    ensures forall i :: 0 <= i < k ==> s[i] != ':'
    ensures k < |s| ==> s[k] == ':'
  {
    if |s| == 0 || s[0] == ':' then 0 else 1 + ColonAt(s[1..])
  }

  /** The data buffer after one line: a `data` field appends its value (one
      leading space dropped) and a line feed; comments and other fields leave it
      alone. */
  function ProcessLine(line: string, buf: string): string {
    var k := ColonAt(line);
    var field := line[..k];
    var raw := if k < |line| then line[k + 1..] else "";
    var value := if |raw| > 0 && raw[0] == ' ' then raw[1..] else raw;
    if field == "data" then buf + value + "\n" else buf
  }

  /** The data of the events dispatched while reading `s` with data buffer
      `buf`: a blank line dispatches a non-empty buffer without its final line
      feed; an unterminated last line is discarded. A CR LF pair counts as one
      line break. */
  function Interpret(s: string, buf: string): seq<string>
    decreases |s|
  {
    var k := LineEnd(s);
    if k == |s| then []
    else
      var next := if s[k] == '\r' && k + 1 < |s| && s[k + 1] == '\n' then k + 2 else k + 1;
      var line := s[..k];
      if line == "" then
        if buf == "" then Interpret(s[next..], "")
        else [buf[..|buf| - 1]] + Interpret(s[next..], "")
      else Interpret(s[next..], ProcessLine(line, buf))
  }

  /** Every frame index.js writes; JSON text never holds a raw line break. */
  function Frames(msgs: seq<string>): string {
    if |msgs| == 0 then "" else Frame(msgs[0]) + Frames(msgs[1..])
  }

  lemma LineEndOfSingle(data: string, rest: string)
    requires SingleLine(data)
    ensures LineEnd(data + "\n" + rest) == |data|
  {
    var s := data + "\n" + rest;
    assert s[|data|] == '\n';
    assert forall i :: 0 <= i < |data| ==> s[i] == data[i];
  }

  /** The line of a frame is a `data` field holding the data. */
  lemma DataLine(data: string)
    requires SingleLine(data)
    ensures SingleLine("data: " + data)
    ensures ProcessLine("data: " + data, "") == data + "\n"
  {
    var line := "data: " + data;
    assert forall i :: 6 <= i < |line| ==> line[i] == data[i - 6];
    assert ColonAt(line) == 4 by {
      assert line[4] == ':';
      assert forall i :: 0 <= i < 4 ==> line[i] == "data"[i];
    }
    assert line[5..] == " " + data;
    assert line[..4] == "data";
  }

  /** A non-empty line ended by a line feed goes through `ProcessLine`. */
  lemma InterpretLine(line: string, rest: string, buf: string)
    requires SingleLine(line) && line != ""
    ensures Interpret(line + "\n" + rest, buf) == Interpret(rest, ProcessLine(line, buf))
  {
    var s := line + "\n" + rest;
    LineEndOfSingle(line, rest);
    assert s[..|line|] == line;
    assert s[|line|] == '\n';
    assert s[|line| + 1..] == rest;
  }

  /** A blank line dispatches the buffer without its final line feed. */
  lemma InterpretBlank(rest: string, buf: string)
    requires buf != ""
    ensures Interpret("\n" + rest, buf) == [buf[..|buf| - 1]] + Interpret(rest, "")
  {
    var s := "\n" + rest;
    assert LineEnd(s) == 0;
    assert s[..0] == "";
    assert s[1..] == rest;
  }

  /** A client reading one frame gets back exactly the data written into it. */
  lemma FrameRead(data: string, rest: string)
    requires SingleLine(data)
    ensures Interpret(Frame(data) + rest, "") == [data] + Interpret(rest, "")
  {
    var line := "data: " + data;
    DataLine(data);
    var buf := data + "\n";
    calc {
      Interpret(Frame(data) + rest, "");
      == { assert Frame(data) + rest == line + "\n" + ("\n" + rest); }
      Interpret(line + "\n" + ("\n" + rest), "");
      == { InterpretLine(line, "\n" + rest, ""); }
      Interpret("\n" + rest, buf);
      == { InterpretBlank(rest, buf); assert buf[..|buf| - 1] == data; }
      [data] + Interpret(rest, "");
    }
  }

  /** The stream of frames reads back as the messages written, in order. */
  lemma {:induction false} FramesRead(msgs: seq<string>)
    requires forall i :: 0 <= i < |msgs| ==> SingleLine(msgs[i])
    ensures Interpret(Frames(msgs), "") == msgs
  {
    if |msgs| > 0 {
      FramesRead(msgs[1..]);
      FrameRead(msgs[0], Frames(msgs[1..]));
    }
  }
}
