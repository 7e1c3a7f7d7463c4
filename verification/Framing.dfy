/** `JSONSerializer`: multi-lang messages as lines ended by a line "end". */
module Framing {
  import opened Options
  import opened Sanitise

  /** `readline`: up to and including the first newline, or what is left. */
  function LineLength(s: string): (n: nat)
    ensures n <= |s| && (s != [] ==> n > 0)
  {
    if s == [] then 0 else if s[0] == '\n' then 1 else 1 + LineLength(s[1..])
  }

  /** `line.rstrip("\n")` of such a line. */
  function Stripped(line: string): string {
    if line != [] && line[|line| - 1] == '\n' then line[..|line| - 1] else line
  }

  /** What the loop of `read_message` finds: the end of the stream, or the lines of one message and the rest
      of the stream; and how many blank lines it skipped. */
  datatype Frame = AtEof(blanks: nat) | Complete(lines: seq<string>, rest: string, blanks: nat)

  function ReadFrame(s: string, lines: seq<string>, blanks: nat): (f: Frame)
    ensures f.Complete? ==> |f.rest| < |s|
    decreases |s|
  {
    if s == [] then AtEof(blanks)
    else
      var n := LineLength(s);
      var line := Stripped(s[..n]);
      if line == "end" then Complete(lines, s[n..], blanks)
      else if line == "" then ReadFrame(s[n..], lines, blanks + 1)
      else ReadFrame(s[n..], lines + [line], blanks)
  }

  function Join(lines: seq<string>): string {
    if |lines| == 0 then ""
    else if |lines| == 1 then lines[0]
    else lines[0] + "\n" + Join(lines[1..])
  }

  /** How one `read_message` ends. */
  datatype Outcome = Message(value: Value) | Malformed | WentAway

  function Parsed(loads: string -> Option<Value>, lines: seq<string>): Outcome {
    match loads(Join(lines))
    case Some(v) => Message(v)
    case None => Malformed
  }

  function SerializeDict(dumps: Value -> string, message: Value): string {
    dumps(Replace(message)) + "\nend\n"
  }

  /** `json.dumps` and `json.loads` are the two functions; the streams are what is left to read and what has
      been written. */
  class JSONSerializer {
    const dumps: Value -> string
    const loads: string -> Option<Value>
    var input: string
    var output: string
    var pipeOpen: bool
    var blankLinesRead: nat

    constructor (dumps: Value -> string, loads: string -> Option<Value>, input: string)
      ensures this.dumps == dumps && this.loads == loads
      ensures this.input == input && output == "" && pipeOpen && blankLinesRead == 0
    {
      this.dumps, this.loads, this.input := dumps, loads, input;
      output, pipeOpen, blankLinesRead := "", true, 0;
    }

    /** `input_stream.readline`. */
    method Readline() returns (line: string)
      modifies `input
      ensures line + input == old(input) && |line| == LineLength(old(input))
    {
      var n := LineLength(input);
      line := input[..n];
      input := input[n..];
    }

    /** `read_message`. */
    method ReadMessage() returns (r: Outcome)
      modifies `input, `blankLinesRead
      ensures match ReadFrame(old(input), [], old(blankLinesRead))
        case AtEof(blanks) => r == WentAway && input == "" && blankLinesRead == blanks
        case Complete(lines, rest, blanks) => r == Parsed(loads, lines) && input == rest && blankLinesRead == blanks
    {
      var message: seq<string> := [];
      while true
        invariant ReadFrame(input, message, blankLinesRead) == ReadFrame(old(input), [], old(blankLinesRead))
        decreases |input|
      {
        ghost var before := input;
        var line := Readline();
        assert before[..|line|] == line && before[|line|..] == input;
        if line == "" {
          return WentAway;
        }
        line := Stripped(line);
        if line == "end" {
          break;
        }
        if line == "" {
          blankLinesRead := blankLinesRead + 1;
        } else {
          message := message + [line];
        }
      }
      return Parsed(loads, message);
    }

    /** `send_message`: one frame, without blank lines. */
    method SendMessage(message: Value) returns (sent: bool)
      modifies `output
      ensures sent == pipeOpen
      ensures output == old(output) + if sent then Bytes(dumps, Framed(message, 0, 0)) else ""
    {
      sent := pipeOpen;
      if sent {
        SerializedIsFrame(dumps, message);
        output := output + SerializeDict(dumps, message);
      }
    }

    /** Any sequence of `send_message` calls on a new, open pipe: what was written is read back sanitised, in order,
        and then the stream ends; and nothing that Storm cannot read was written. */
    method SendThem(messages: seq<Value>)
      requires pipeOpen && output == ""
      requires forall m | m in messages :: Faithful(dumps, loads, m)
      modifies `output
      ensures ReadAll(loads, output) ==
        seq(|messages|, i requires 0 <= i < |messages| => Message(Replace(messages[i]))) + [WentAway]
      ensures forall r | r in ReadAll(loads, output) && r.Message? :: AllReadable(r.value)
    {
      hide Replace, ReadAll;
      var i := 0;
      assert messages[..0] == [];
      while i < |messages|
        invariant 0 <= i <= |messages|
        invariant output == Written(dumps, messages[..i])
      {
        assert messages[..i + 1] == messages[..i] + [messages[i]];
        WrittenNext(dumps, messages[..i], messages[i]);
        var sent := SendMessage(messages[i]);
        i := i + 1;
      }
      assert messages[..i] == messages;
      WrittenIsRead(dumps, loads, messages);
      ghost var all := ReadAll(loads, output);
      forall r | r in all && r.Message?
        ensures AllReadable(r.value)
      {
        var k :| 0 <= k < |all| && all[k] == r;
        ReplacedIsReadable(messages[k]);
      }
    }
  }

  /** The running count of blank lines does not influence what is read. */
  lemma {:induction false} BlanksOnlyCount(s: string, lines: seq<string>, blanks: nat)
    ensures match ReadFrame(s, lines, 0)
      case AtEof(n) => ReadFrame(s, lines, blanks) == AtEof(blanks + n)
      case Complete(ls, rest, n) => ReadFrame(s, lines, blanks) == Complete(ls, rest, blanks + n)
    decreases |s|
  {
    if s != [] {
      var n := LineLength(s);
      var line := Stripped(s[..n]);
      if line == "" {
        BlanksOnlyCount(s[n..], lines, 1);
        BlanksOnlyCount(s[n..], lines, blanks + 1);
      } else if line != "end" {
        BlanksOnlyCount(s[n..], lines + [line], blanks);
      }
    }
  }

  // ---- streams of messages ----

  function Blank(n: nat): string {
    seq(n, i => '\n')
  }

  /** A message as it arrives: serialised, with blank lines before either of its two lines. */
  datatype Framed = Framed(message: Value, before: nat, between: nat)

  function Bytes(dumps: Value -> string, f: Framed): string {
    Blank(f.before) + dumps(Replace(f.message)) + "\n" + Blank(f.between) + "end\n"
  }

  function Stream(dumps: Value -> string, frames: seq<Framed>, after: nat): string {
    if frames == [] then Blank(after) else Bytes(dumps, frames[0]) + Stream(dumps, frames[1..], after)
  }

  /** What is taken from the json module for one message: `dumps` gives one line that begins with a brace, and
      `loads` inverts it. */
  predicate Faithful(dumps: Value -> string, loads: string -> Option<Value>, message: Value) {
    var text := dumps(Replace(message));
    && text != [] && text[0] == '{' && '\n' !in text
    && loads(text) == Some(Replace(message))
  }

  /** Everything `read_message` returns until StormWentAwayError. */
  function ReadAll(loads: string -> Option<Value>, s: string): (r: seq<Outcome>)
    decreases |s|
  {
    match ReadFrame(s, [], 0)
    case AtEof(_) => [WentAway]
    case Complete(lines, rest, _) => [Parsed(loads, lines)] + ReadAll(loads, rest)
  }

  lemma {:induction false} LineLengthOf(line: string, rest: string)
    requires '\n' !in line
    ensures LineLength(line + "\n" + rest) == |line| + 1
    ensures LineLength(line) == |line|
  {
    if line != [] {
      assert (line + "\n" + rest)[1..] == line[1..] + "\n" + rest;
      LineLengthOf(line[1..], rest);
    }
  }

  /** One full line. */
  lemma ReadLine(line: string, rest: string, lines: seq<string>, blanks: nat)
    requires '\n' !in line
    ensures ReadFrame(line + "\n" + rest, lines, blanks) ==
      if line == "end" then Complete(lines, rest, blanks)
      else if line == "" then ReadFrame(rest, lines, blanks + 1)
      else ReadFrame(rest, lines + [line], blanks)
  {
    LineLengthOf(line, rest);
    var s := line + "\n" + rest;
    assert s[..|line| + 1] == line + "\n" && s[|line| + 1..] == rest;
    assert (line + "\n")[..|line|] == line;
  }

  /** A last line without its newline. */
  lemma ReadPart(line: string, lines: seq<string>, blanks: nat)
    requires '\n' !in line && line != ""
    ensures ReadFrame(line, lines, blanks) == if line == "end" then Complete(lines, "", blanks) else AtEof(blanks)
  {
    LineLengthOf(line, "");
    assert line[..|line|] == line && line[|line|..] == "";
  }

  lemma {:induction false} ReadBlank(n: nat, rest: string, lines: seq<string>, blanks: nat)
    ensures ReadFrame(Blank(n) + rest, lines, blanks) == ReadFrame(rest, lines, blanks + n)
    decreases n
  {
    if n == 0 {
      assert Blank(0) + rest == rest;
    } else {
      assert Blank(n) + rest == "" + "\n" + (Blank(n - 1) + rest);
      ReadLine("", Blank(n - 1) + rest, lines, blanks);
      ReadBlank(n - 1, rest, lines, blanks + 1);
    }
  }

  /** What is left of one frame's bytes when the stream is cut after n of them. */
  function Cut(dumps: Value -> string, f: Framed, n: nat): string
    requires n <= |Bytes(dumps, f)|
  {
    Bytes(dumps, f)[..n]
  }

  /** A frame is read once all of it but its last newline is there. */
  lemma ReadWhole(dumps: Value -> string, loads: string -> Option<Value>, f: Framed, rest: string)
    requires Faithful(dumps, loads, f.message)
    ensures
      var text := dumps(Replace(f.message));
      && ReadFrame(Bytes(dumps, f) + rest, [], 0) == Complete([text], rest, f.before + f.between)
      && ReadFrame(Cut(dumps, f, |Bytes(dumps, f)| - 1), [], 0) == Complete([text], "", f.before + f.between)
  {
    hide ReadFrame;
    hide Replace;
    var text := dumps(Replace(f.message));
    var none: seq<string> := [];
    assert none + [text] == [text];
    var tail := Blank(f.between) + ("end" + "\n" + rest);
    assert Bytes(dumps, f) + rest == Blank(f.before) + (text + "\n" + tail);
    ReadBlank(f.before, text + "\n" + tail, [], 0);
    ReadLine(text, tail, [], f.before);
    ReadBlank(f.between, "end" + "\n" + rest, [text], f.before);
    ReadLine("end", rest, [text], f.before + f.between);
    var short := Blank(f.between) + "end";
    assert Cut(dumps, f, |Bytes(dumps, f)| - 1) == Blank(f.before) + (text + "\n" + short);
    ReadBlank(f.before, text + "\n" + short, [], 0);
    ReadLine(text, short, [], f.before);
    ReadBlank(f.between, "end", [text], f.before);
    ReadPart("end", [text], f.before + f.between);
  }

  /** Anything shorter is no message at all. */
  lemma ReadCut(dumps: Value -> string, loads: string -> Option<Value>, f: Framed, n: nat)
    requires Faithful(dumps, loads, f.message) && n + 1 < |Bytes(dumps, f)|
    ensures ReadFrame(Cut(dumps, f, n), [], 0).AtEof?
  {
    hide ReadFrame;
    hide Replace;
    var text, all := dumps(Replace(f.message)), Bytes(dumps, f);
    var a, b, c := f.before, f.before + |text|, f.before + |text| + 1 + f.between;
    if n <= a {
      assert all[..n] == Blank(n) + "";
      ReadBlank(n, "", [], 0);
    } else if n <= b {
      var part := text[..n - a];
      assert all[..n] == Blank(a) + part;
      ReadBlank(a, part, [], 0);
      assert part[0] == '{';
      ReadPart(part, [], a);
    } else {
      var end := if n <= c then "" else "end"[..n - c];
      var tail := Blank(if n <= c then n - b - 1 else f.between) + end;
      assert all[..n] == Blank(a) + (text + "\n" + tail);
      ReadBlank(a, text + "\n" + tail, [], 0);
      var none: seq<string> := [];
      assert none + [text] == [text];
      ReadLine(text, tail, [], a);
      ReadBlank(if n <= c then n - b - 1 else f.between, end, [text], a);
      if end != "" {
        ReadPart(end, [text], a + f.between);
      }
    }
  }

  /** The messages whose frames lie within the first n bytes, give or take the last newline. */
  function Arrived(dumps: Value -> string, frames: seq<Framed>, n: nat): seq<Outcome> {
    if frames == [] then []
    else
      var size := |Bytes(dumps, frames[0])|;
      if n + 1 < size then []
      else [Message(Replace(frames[0].message))] + Arrived(dumps, frames[1..], if n < size then 0 else n - size)
  }

  /** However the stream is cut, reading it returns the sanitised messages that have arrived in full, in
      order, and then StormWentAwayError; no part of a message is ever returned. */
  lemma {:induction false} CutStream(dumps: Value -> string, loads: string -> Option<Value>, frames: seq<Framed>,
                                     after: nat, n: nat)
    requires forall f | f in frames :: Faithful(dumps, loads, f.message)
    requires n <= |Stream(dumps, frames, after)|
    ensures ReadAll(loads, Stream(dumps, frames, after)[..n]) == Arrived(dumps, frames, n) + [WentAway]
    decreases |frames|
  {
    hide ReadFrame;
    hide Replace;
    hide Bytes;
    if frames == [] {
      assert Blank(after)[..n] == Blank(n) + "";
      ReadBlank(n, "", [], 0);
    } else {
      var f, later := frames[0], Stream(dumps, frames[1..], after);
      var bytes := Bytes(dumps, f);
      var size := |bytes|;
      assert Faithful(dumps, loads, f.message);
      if n + 1 < size {
        assert (bytes + later)[..n] == Cut(dumps, f, n);
        ReadCut(dumps, loads, f, n);
      } else {
        var rest := if n < size then 0 else n - size;
        CutStream(dumps, loads, frames[1..], after, rest);
        ReadWhole(dumps, loads, f, later[..rest]);
        assert (bytes + later)[..n] == if n < size then Cut(dumps, f, size - 1) else bytes + later[..rest];
      }
    }
  }

  /** What `send_message` writes, whatever blank lines get in between, is read back in order and sanitised. */
  lemma {:induction false} RoundTrip(dumps: Value -> string, loads: string -> Option<Value>, frames: seq<Framed>,
                                     after: nat)
    requires forall f | f in frames :: Faithful(dumps, loads, f.message)
    ensures ReadAll(loads, Stream(dumps, frames, after)) ==
      seq(|frames|, i requires 0 <= i < |frames| => Message(Replace(frames[i].message))) + [WentAway]
    decreases |frames|
  {
    var s := Stream(dumps, frames, after);
    CutStream(dumps, loads, frames, after, |s|);
    assert s[..|s|] == s;
    AllArrived(dumps, frames, after);
  }

  lemma {:induction false} AllArrived(dumps: Value -> string, frames: seq<Framed>, after: nat)
    ensures Arrived(dumps, frames, |Stream(dumps, frames, after)|) ==
      seq(|frames|, i requires 0 <= i < |frames| => Message(Replace(frames[i].message)))
    decreases |frames|
  {
    if frames != [] {
      AllArrived(dumps, frames[1..], after);
    }
  }

  // ---- what is written ----

  lemma SerializedIsFrame(dumps: Value -> string, message: Value)
    ensures SerializeDict(dumps, message) == Bytes(dumps, Framed(message, 0, 0))
  {
    hide Replace;
    var text := dumps(Replace(message));
    assert Blank(0) == "" && "" + text == text && text + "\n" + "" == text + "\n";
    assert text + "\nend\n" == text + "\n" + "end\n";
  }

  /** The output after these messages were sent. */
  function Written(dumps: Value -> string, messages: seq<Value>): string {
    if messages == [] then ""
    else SerializeDict(dumps, messages[0]) + Written(dumps, messages[1..])
  }

  lemma {:induction false} WrittenNext(dumps: Value -> string, messages: seq<Value>, message: Value)
    ensures Written(dumps, messages + [message]) == Written(dumps, messages) + Bytes(dumps, Framed(message, 0, 0))
  {
    hide SerializeDict, Bytes;
    SerializedIsFrame(dumps, message);
    var all := messages + [message];
    if messages == [] {
      assert all == [message] && [message][1..] == [];
    } else {
      assert all[1..] == messages[1..] + [message];
      WrittenNext(dumps, messages[1..], message);
    }
  }

  lemma {:induction false} WrittenIsStream(dumps: Value -> string, messages: seq<Value>)
    ensures Written(dumps, messages) ==
      Stream(dumps, seq(|messages|, i requires 0 <= i < |messages| => Framed(messages[i], 0, 0)), 0)
  {
    hide SerializeDict, Bytes;
    var frames := seq(|messages|, i requires 0 <= i < |messages| => Framed(messages[i], 0, 0));
    if messages != [] {
      SerializedIsFrame(dumps, messages[0]);
      WrittenIsStream(dumps, messages[1..]);
      assert frames[1..] == seq(|messages| - 1, i requires 0 <= i < |messages| - 1 => Framed(messages[1..][i], 0, 0));
    }
  }

  /** What `send_message` has written is read back sanitised, in order, and then the stream ends. */
  lemma WrittenIsRead(dumps: Value -> string, loads: string -> Option<Value>, messages: seq<Value>)
    requires forall m | m in messages :: Faithful(dumps, loads, m)
    ensures ReadAll(loads, Written(dumps, messages)) ==
      seq(|messages|, i requires 0 <= i < |messages| => Message(Replace(messages[i]))) + [WentAway]
  {
    hide Replace, ReadAll, Written, Stream, Faithful;
    var frames := seq(|messages|, i requires 0 <= i < |messages| => Framed(messages[i], 0, 0));
    assert forall f | f in frames :: f.message in messages;
    WrittenIsStream(dumps, messages);
    RoundTrip(dumps, loads, frames, 0);
    assert seq(|frames|, i requires 0 <= i < |frames| => Message(Replace(frames[i].message))) ==
      seq(|messages|, i requires 0 <= i < |messages| => Message(Replace(messages[i])));
  }
}
