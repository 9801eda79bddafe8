/**
 * The client side of server-sent events: how a conforming consumer reads an event stream, after
 * sections 9.2.5 "Parsing an event stream" and 9.2.6 "Interpreting an event stream" of the WHATWG
 * HTML Living Standard. Works on the bytes of the stream; everything the format gives a meaning to is ASCII.
 */
module EventStream {
  import opened Wrappers

  newtype byte = x: int | 0 <= x < 256

  type Bytes = seq<byte>

  const LF: byte := 10
  const CR: byte := 13
  const SPACE: byte := 32
  const COLON: byte := 58
  const BOM: Bytes := [0xEF, 0xBB, 0xBF]

  const ID: Bytes := [105, 100]
  const EVENT: Bytes := [101, 118, 101, 110, 116]
  const DATA: Bytes := [100, 97, 116, 97]
  const RETRY: Bytes := [114, 101, 116, 114, 121]
  const MESSAGE: Bytes := [109, 101, 115, 115, 97, 103, 101]

  datatype Message = Message(kind: Bytes, data: Bytes, lastEventId: Bytes)

  /** The buffers of the parser and what the page gets to see. */
  datatype Client = Client(
    dataBuffer: Bytes,
    typeBuffer: Bytes,
    idBuffer: Bytes,
    lastEventId: Bytes,
    reconnectionTime: Option<nat>,
    messages: seq<Message>)

  const CONNECTED: Client := Client([], [], [], [], None, [])

  // ---- Numbers ----

  predicate IsDigit(b: byte) { 48 <= b <= 57 }

  predicate AllDigits(s: Bytes) { forall i :: 0 <= i < |s| ==> IsDigit(s[i]) }

  function NumberOf(s: Bytes): nat
    requires AllDigits(s)
  {
    if s == [] then 0 else NumberOf(s[..|s| - 1]) * 10 + (s[|s| - 1] - 48) as nat
  }

  // ---- Lines ----

  predicate IsBreak(b: byte) { b == CR || b == LF }

  predicate OneLine(s: Bytes) { forall i :: 0 <= i < |s| ==> !IsBreak(s[i]) }

  predicate SingleLines(lines: seq<Bytes>) { forall i :: 0 <= i < |lines| ==> OneLine(lines[i]) }

  /** The first line, without its end, and what follows; None when no line has ended yet. */
  function NextLine(s: Bytes): (r: Option<(Bytes, Bytes)>)
    ensures r.Some? ==> |r.value.1| < |s|
  {
    if s == [] then None
    else if s[0] == LF then Some(([], s[1..]))
    else if s[0] == CR then Some(([], if |s| >= 2 && s[1] == LF then s[2..] else s[1..]))
    else
      match NextLine(s[1..])
      case None => None
      case Some((line, rest)) => Some(([s[0]] + line, rest))
  }

  /** The index of the first colon, or the length when there is none. */
  function FirstColon(line: Bytes): (i: nat)
    ensures i <= |line|
  {
    if line == [] || line[0] == COLON then 0 else 1 + FirstColon(line[1..])
  }

  function WithoutLeadingSpace(value: Bytes): Bytes {
    if value != [] && value[0] == SPACE then value[1..] else value
  }

  function ProcessField(c: Client, field: Bytes, value: Bytes): Client {
    if field == EVENT then c.(typeBuffer := value)
    else if field == DATA then c.(dataBuffer := c.dataBuffer + value + [LF])
    else if field == ID then (if 0 in value then c else c.(idBuffer := value))
    else if field == RETRY then
      (if value != [] && AllDigits(value) then c.(reconnectionTime := Some(NumberOf(value))) else c)
    else c
  }

  function Dispatch(c: Client): Client {
    var d := c.(lastEventId := c.idBuffer, dataBuffer := [], typeBuffer := []);
    if c.dataBuffer == [] then d
    else
      var n := |c.dataBuffer|;
      var data := if c.dataBuffer[n - 1] == LF then c.dataBuffer[..n - 1] else c.dataBuffer;
      var kind := if c.typeBuffer == [] then MESSAGE else c.typeBuffer;
      d.(messages := c.messages + [Message(kind, data, c.idBuffer)])
  }

  function ProcessLine(c: Client, line: Bytes): Client {
    if line == [] then Dispatch(c)
    else
      var colon := FirstColon(line);
      if colon == 0 then c
      else if colon == |line| then ProcessField(c, line, [])
      else ProcessField(c, line[..colon], WithoutLeadingSpace(line[colon + 1..]))
  }

  function Interpret(c: Client, s: Bytes): Client
    decreases |s|
  {
    match NextLine(s)
    case None => c
    case Some((line, rest)) => Interpret(ProcessLine(c, line), rest)
  }

  /** A whole stream, from the connection to the end of the file; an unfinished event at the end is discarded. */
  function Receive(s: Bytes): Client {
    Interpret(CONNECTED, if BOM <= s then s[|BOM|..] else s)
  }

  // ---- Streams that are written line by line ----

  /** The line ends of the format. */
  predicate IsLineEnd(sep: Bytes) { sep == [CR, LF] || sep == [CR] || sep == [LF] }

  function Unlines(lines: seq<Bytes>, sep: Bytes): Bytes {
    if lines == [] then [] else lines[0] + sep + Unlines(lines[1..], sep)
  }

  function ProcessLines(c: Client, lines: seq<Bytes>): Client
    decreases lines
  {
    if lines == [] then c else ProcessLines(ProcessLine(c, lines[0]), lines[1..])
  }

  lemma {:induction false} UnlinesAppend(a: seq<Bytes>, b: seq<Bytes>, sep: Bytes)
    ensures Unlines(a + b, sep) == Unlines(a, sep) + Unlines(b, sep)
  {
    if a == [] {
      assert a + b == b;
    } else {
      assert (a + b)[1..] == a[1..] + b;
      UnlinesAppend(a[1..], b, sep);
    }
  }

  lemma {:induction false} ProcessLinesAppend(c: Client, a: seq<Bytes>, b: seq<Bytes>)
    ensures ProcessLines(c, a + b) == ProcessLines(ProcessLines(c, a), b)
    decreases a
  {
    hide ProcessLine;
    if a == [] {
      assert a + b == b;
    } else {
      assert (a + b)[1..] == a[1..] + b;
      ProcessLinesAppend(ProcessLine(c, a[0]), a[1..], b);
    }
  }

  /** A line end is recognised where it was written, unless a lone CR meets an LF that follows. */
  lemma {:induction false} LineComesBack(line: Bytes, sep: Bytes, rest: Bytes)
    requires OneLine(line) && IsLineEnd(sep)
    requires sep == [CR] ==> rest == [] || rest[0] != LF
    ensures NextLine(line + sep + rest) == Some((line, rest))
  {
    var s := line + sep + rest;
    if line == [] {
      assert s == sep + rest;
      assert s[|sep|..] == rest;
    } else {
      assert s[1..] == line[1..] + sep + rest;
      LineComesBack(line[1..], sep, rest);
      assert [line[0]] + line[1..] == line;
    }
  }

  lemma StartsWithoutLF(lines: seq<Bytes>)
    requires SingleLines(lines)
    ensures Unlines(lines, [CR]) == [] || Unlines(lines, [CR])[0] != LF
  {}

  /** Reading what was written line by line processes exactly those lines. */
  lemma {:induction false} LinesComeBack(c: Client, lines: seq<Bytes>, sep: Bytes)
    requires SingleLines(lines)
    requires IsLineEnd(sep)
    ensures Interpret(c, Unlines(lines, sep)) == ProcessLines(c, lines)
    decreases lines
  {
    hide ProcessLine;
    if lines != [] {
      var rest := Unlines(lines[1..], sep);
      StartsWithoutLF(lines[1..]);
      LineComesBack(lines[0], sep, rest);
      LinesComeBack(ProcessLine(c, lines[0]), lines[1..], sep);
    }
  }

  /** A line of the form `name: value` is read as that field, for any value on one line. */
  lemma {:induction false} ColonFound(name: Bytes, rest: Bytes)
    requires COLON !in name
    ensures FirstColon(name + [COLON] + rest) == |name|
  {
    var line := name + [COLON] + rest;
    if name != [] {
      assert line[1..] == name[1..] + [COLON] + rest;
      ColonFound(name[1..], rest);
    }
  }

  lemma {:induction false} FieldComesBack(c: Client, name: Bytes, value: Bytes)
    requires name != [] && COLON !in name
    ensures ProcessLine(c, name + [COLON, SPACE] + value) == ProcessField(c, name, value)
  {
    hide ProcessField;
    var line := name + [COLON, SPACE] + value;
    assert line == name + [COLON] + ([SPACE] + value);
    ColonFound(name, [SPACE] + value);
    assert line[..|name|] == name && line[|name| + 1..] == [SPACE] + value;
    assert ([SPACE] + value)[1..] == value;
  }

  /** The blank behind the colon is optional, and so are the colon and the value. */
  lemma {:induction false} FieldWithoutBlank(c: Client, name: Bytes, value: Bytes)
    requires name != [] && COLON !in name && (value != [] ==> value[0] != SPACE)
    ensures ProcessLine(c, name + [COLON] + value) == ProcessField(c, name, value)
    ensures ProcessLine(c, name) == ProcessField(c, name, [])
  {
    hide ProcessField;
    var line := name + [COLON] + value;
    ColonFound(name, value);
    assert line[..|name|] == name && line[|name| + 1..] == value;
    NoColon(name);
  }

  lemma {:induction false} NoColon(line: Bytes)
    requires COLON !in line
    ensures FirstColon(line) == |line|
  {
    if line != [] {
      NoColon(line[1..]);
    }
  }

  /**
   * What the standard says beyond what the renderer makes use of: a byte order mark in front is dropped,
   * a line that begins with a colon, an identifier with a null byte, a retry time with anything but
   * digits and a field of another name have no effect, and a line that has not ended is not processed.
   */
  lemma {:induction false} IgnoredByTheClient(c: Client, field: Bytes, value: Bytes, s: Bytes)
    ensures Receive(BOM + s) == Interpret(CONNECTED, s)
    ensures ProcessLine(c, [COLON] + value) == c
    ensures 0 in value ==> ProcessField(c, ID, value) == c
    ensures value == [] || !AllDigits(value) ==> ProcessField(c, RETRY, value) == c
    ensures field !in {EVENT, DATA, ID, RETRY} ==> ProcessField(c, field, value) == c
    ensures OneLine(value) ==> Interpret(c, value) == c
  {
    assert (BOM + s)[|BOM|..] == s;
    if OneLine(value) {
      NoLineYet(value);
    }
  }

  lemma {:induction false} NoLineYet(s: Bytes)
    requires OneLine(s)
    ensures NextLine(s).None?
  {
    if s != [] {
      NoLineYet(s[1..]);
    }
  }

  /** Only digits are digits. */
  lemma DigitsOnly(b: byte)
    ensures IsDigit(b) <==> '0' as int <= b as int <= '9' as int
  {}

  lemma CommentIgnored(c: Client, text: Bytes)
    ensures ProcessLine(c, [COLON, SPACE] + text) == c
  {}
}
