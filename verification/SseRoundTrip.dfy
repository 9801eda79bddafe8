/**
 * What a conforming client makes of a rendered stream: exactly the events that were sent, whatever
 * bytes their payloads, comments, identifiers and names contain.
 */
module SseRoundTrip {
  import opened Wrappers
  import opened EventStream
  import opened Sse

  // ---- What the events mean, without any bytes on the wire ----

  /** Line ends of any kind become single line feeds. */
  function Normalized(s: Bytes): Bytes {
    if s == [] then []
    else if s[0] == CR && |s| >= 2 && s[1] == LF then [LF] + Normalized(s[2..])
    else if s[0] == CR then [LF] + Normalized(s[1..])
    else [s[0]] + Normalized(s[1..])
  }

  /** The identifier in force after the events: the last one that was set. */
  function LastId(fs: seq<Fields>): Bytes {
    if fs == [] then []
    else if fs[|fs| - 1].id.Some? then IdText(fs[|fs| - 1].id.value)
    else LastId(fs[..|fs| - 1])
  }

  /** The reconnection time in force; a negative one has no effect. */
  function LastRetry(fs: seq<Fields>): Option<nat> {
    if fs == [] then None
    else if fs[|fs| - 1].retry.Some? && fs[|fs| - 1].retry.value >= 0 then Some(fs[|fs| - 1].retry.value)
    else LastRetry(fs[..|fs| - 1])
  }

  function KindOf(f: Fields): Bytes {
    if f.event.None? || f.event.value == [] then MESSAGE else f.event.value
  }

  /** One message for every event with data, in order. */
  function Messages(fs: seq<Fields>): seq<Message> {
    if fs == [] then []
    else
      var last := fs[|fs| - 1];
      Messages(fs[..|fs| - 1])
      + if last.data.None? then [] else [Message(KindOf(last), Normalized(last.data.value), LastId(fs))]
  }

  /** The state of a client that understood the events. */
  function Understood(fs: seq<Fields>): Client {
    Client([], [], LastId(fs), LastId(fs), LastRetry(fs), Messages(fs))
  }

  // ---- What goes over the wire ----

  function Stream(fs: seq<Fields>, sep: Bytes): Bytes {
    if fs == [] then [] else Stream(fs[..|fs| - 1], sep) + Frame(fs[|fs| - 1], sep)
  }

  function StreamLines(fs: seq<Fields>): seq<Bytes> {
    if fs == [] then [] else StreamLines(fs[..|fs| - 1]) + FrameLines(fs[|fs| - 1])
  }

  lemma {:induction false} StreamOfLines(fs: seq<Fields>, sep: Bytes)
    ensures Stream(fs, sep) == Unlines(StreamLines(fs), sep)
  {
    hide FrameLines;
    if fs != [] {
      StreamOfLines(fs[..|fs| - 1], sep);
      UnlinesAppend(StreamLines(fs[..|fs| - 1]), FrameLines(fs[|fs| - 1]), sep);
    }
  }

  // ---- Splitting a payload and putting it together again ----

  /** What a run of data lines appends to the data buffer. */
  function DataOf(pieces: seq<Bytes>): Bytes {
    if pieces == [] then [] else pieces[0] + [LF] + DataOf(pieces[1..])
  }

  lemma DataOfCons(first: Bytes, rest: seq<Bytes>)
    ensures DataOf([first] + rest) == first + [LF] + DataOf(rest)
  {
    assert ([first] + rest)[1..] == rest;
  }

  lemma DataOfLonger(b: byte, first: Bytes, rest: seq<Bytes>)
    ensures DataOf([[b] + first] + rest) == [b] + DataOf([first] + rest)
  {
    DataOfCons(first, rest);
    DataOfCons([b] + first, rest);
    assert [b] + first + [LF] + DataOf(rest) == [b] + (first + [LF] + DataOf(rest));
  }

  lemma {:induction false} PiecesComeTogether(s: Bytes)
    ensures DataOf(SplitLines(s)) == Normalized(s) + [LF]
  {
    assert DataOf([]) == [];
    hide DataOf;
    if s == [] {
      DataOfCons([], []);
      assert [[]] + [] == SplitLines(s);
    } else if s[0] == CR && |s| >= 2 && s[1] == LF {
      PiecesComeTogether(s[2..]);
      DataOfCons([], SplitLines(s[2..]));
    } else if IsBreak(s[0]) {
      PiecesComeTogether(s[1..]);
      DataOfCons([], SplitLines(s[1..]));
    } else {
      var rest := SplitLines(s[1..]);
      PiecesComeTogether(s[1..]);
      assert [rest[0]] + rest[1..] == rest;
      DataOfLonger(s[0], rest[0], rest[1..]);
    }
  }

  /** Normalizing removes every CR and leaves text without CR alone. */
  lemma {:induction false} NormalizedHasNoCR(s: Bytes)
    ensures CR !in Normalized(s)
    ensures CR !in s ==> Normalized(s) == s
  {
    if s == [] {
    } else if s[0] == CR && |s| >= 2 && s[1] == LF {
      NormalizedHasNoCR(s[2..]);
    } else {
      NormalizedHasNoCR(s[1..]);
    }
  }

  // ---- One frame ----

  lemma DecimalIsPlain(n: int)
    ensures OneLine(Decimal(n)) && 0 !in Decimal(n) && Decimal(n) != []
    ensures AllDigits(Decimal(n)) <==> n >= 0
    ensures n >= 0 ==> NumberOf(Decimal(n)) == n
  {
    if n < 0 {
      assert Decimal(n)[0] == 45;
      assert forall i :: 1 <= i < |Decimal(n)| ==> IsDigit(Decimal(n)[i]);
    }
  }

  lemma OptionalOnOneLine(name: Bytes, text: Option<Bytes>)
    requires OneLine(name) && (text.Some? ==> OneLine(text.value))
    ensures SingleLines(OptionalLine(name, text))
  {}

  lemma PiecesOnSingleLines(prefix: Bytes, text: Bytes)
    requires OneLine(prefix)
    ensures SingleLines(Prefixed(prefix, SplitLines(text)))
  {}

  lemma FrameOnSingleLines(f: Fields)
    requires Sound(f)
    ensures SingleLines(FrameLines(f))
  {
    hide Prefixed, SplitLines, Decimal, OptionalLine;
    if f.comment.Some? {
      PiecesOnSingleLines([COLON, SPACE], f.comment.value);
    }
    if f.data.Some? {
      PiecesOnSingleLines(DATA + [COLON, SPACE], f.data.value);
    }
    if f.id.Some? && f.id.value.Number? {
      DecimalIsPlain(f.id.value.value);
    }
    if f.retry.Some? {
      DecimalIsPlain(f.retry.value);
    }
    OptionalOnOneLine(ID, if f.id.None? then None else Some(IdText(f.id.value)));
    OptionalOnOneLine(EVENT, f.event);
    OptionalOnOneLine(RETRY, if f.retry.None? then None else Some(Decimal(f.retry.value)));
    assert SingleLines(FrameLines(f)) by {
      hide CommentLines, IdLines, DataLines, RetryLines, OptionalLine, FrameLines;
      FrameLinesInOrder(f);
    }
  }

  lemma {:induction false} CommentsDoNothing(c: Client, pieces: seq<Bytes>)
    ensures ProcessLines(c, Prefixed([COLON, SPACE], pieces)) == c
  {
    hide ProcessLine;
    if pieces != [] {
      CommentIgnored(c, pieces[0]);
      CommentsDoNothing(c, pieces[1..]);
    }
  }

  lemma {:induction false} DataCollects(c: Client, pieces: seq<Bytes>)
    ensures ProcessLines(c, Prefixed(DATA + [COLON, SPACE], pieces))
      == c.(dataBuffer := c.dataBuffer + DataOf(pieces))
    decreases pieces
  {
    hide ProcessLine;
    if pieces == [] {
      assert c.dataBuffer + [] == c.dataBuffer;
    } else {
      FieldComesBack(c, DATA, pieces[0]);
      var next := c.(dataBuffer := c.dataBuffer + pieces[0] + [LF]);
      DataCollects(next, pieces[1..]);
      assert c.dataBuffer + pieces[0] + [LF] + DataOf(pieces[1..])
        == c.dataBuffer + (pieces[0] + [LF] + DataOf(pieces[1..]));
    }
  }

  lemma OptionalField(c: Client, name: Bytes, text: Option<Bytes>)
    requires name != [] && COLON !in name
    ensures ProcessLines(c, OptionalLine(name, text)) == if text.None? then c else ProcessField(c, name, text.value)
  {
    hide ProcessLine, ProcessField;
    if text.Some? {
      FieldComesBack(c, name, text.value);
      assert OptionalLine(name, text)[1..] == [];
    }
  }

  /** The client's buffers right before the empty line that ends the frame. */
  function Collected(c: Client, f: Fields): Client {
    c.(idBuffer := if f.id.Some? then IdText(f.id.value) else c.idBuffer,
       typeBuffer := if f.event.Some? then f.event.value else [],
       dataBuffer := if f.data.Some? then Normalized(f.data.value) + [LF] else [],
       reconnectionTime :=
         if f.retry.Some? && f.retry.value >= 0 then Some(f.retry.value) else c.reconnectionTime)
  }

  lemma {:induction false} FrameCollects(c: Client, f: Fields)
    requires Sound(f) && c.dataBuffer == [] && c.typeBuffer == []
    ensures ProcessLines(c, FrameLines(f)) == Dispatch(Collected(c, f))
  {
    hide Prefixed, SplitLines, Decimal, ProcessLine, NumberOf, Dispatch, ProcessLines, OptionalLine, Normalized;
    hide FrameLines;
    FrameLinesInOrder(f);
    if f.comment.Some? {
      CommentsDoNothing(c, SplitLines(f.comment.value));
    }
    var a, b, d, e := CommentLines(f), IdLines(f), OptionalLine(EVENT, f.event), DataLines(f);
    ProcessLinesAppend(c, a, b);
    ProcessLinesAppend(c, a + b, d);
    ProcessLinesAppend(c, a + b + d, e);
    ProcessLinesAppend(c, a + b + d + e, RetryLines(f));
    ProcessLinesAppend(c, a + b + d + e + RetryLines(f), [[]]);
    NothingProcessed(c);
    if f.id.Some? && f.id.value.Number? {
      DecimalIsPlain(f.id.value.value);
    }
    OptionalField(c, ID, if f.id.None? then None else Some(IdText(f.id.value)));
    var afterId := c.(idBuffer := if f.id.Some? then IdText(f.id.value) else c.idBuffer);
    assert ProcessLines(c, a + b) == afterId;
    OptionalField(afterId, EVENT, f.event);
    var afterEvent := afterId.(typeBuffer := if f.event.Some? then f.event.value else []);
    assert ProcessLines(c, a + b + d) == afterEvent;
    NothingProcessed(afterEvent);
    if f.data.Some? {
      DataCollects(afterEvent, SplitLines(f.data.value));
      PiecesComeTogether(f.data.value);
      assert [] + DataOf(SplitLines(f.data.value)) == DataOf(SplitLines(f.data.value));
    }
    var afterData := afterEvent.(dataBuffer := if f.data.Some? then Normalized(f.data.value) + [LF] else []);
    assert ProcessLines(c, a + b + d + e) == afterData;
    if f.retry.Some? {
      DecimalIsPlain(f.retry.value);
    }
    OptionalField(afterData, RETRY, if f.retry.None? then None else Some(Decimal(f.retry.value)));
    assert ProcessLines(c, a + b + d + e + RetryLines(f)) == Collected(c, f);
    EmptyLineDispatches(Collected(c, f));
  }

  lemma NothingProcessed(c: Client)
    ensures ProcessLines(c, []) == c
  {}

  lemma EmptyLineDispatches(c: Client)
    ensures ProcessLines(c, [[]]) == Dispatch(c)
  {
    var lines: seq<Bytes> := [[]];
    assert lines[1..] == [];
  }

  /** A frame moves the client from having understood the earlier events to having understood this one too. */
  lemma {:induction false} FrameUnderstood(fs: seq<Fields>, f: Fields)
    requires Sound(f)
    ensures ProcessLines(Understood(fs), FrameLines(f)) == Understood(fs + [f])
  {
    hide FrameLines, ProcessLines, Sound;
    FrameCollects(Understood(fs), f);
    assert (fs + [f])[..|fs|] == fs;
    if f.data.Some? {
      assert (Normalized(f.data.value) + [LF])[..|Normalized(f.data.value)|] == Normalized(f.data.value);
    }
  }

  lemma {:induction false} LinesUnderstood(fs: seq<Fields>)
    requires forall i :: 0 <= i < |fs| ==> Sound(fs[i])
    ensures ProcessLines(CONNECTED, StreamLines(fs)) == Understood(fs)
    ensures SingleLines(StreamLines(fs))
  {
    hide FrameLines, ProcessLine, Sound, OneLine;
    if fs != [] {
      var front, last := fs[..|fs| - 1], fs[|fs| - 1];
      assert front + [last] == fs;
      LinesUnderstood(front);
      FrameOnSingleLines(last);
      ProcessLinesAppend(CONNECTED, StreamLines(front), FrameLines(last));
      FrameUnderstood(front, last);
    }
  }

  // ---- The whole stream ----

  predicate Ascii(s: Bytes) { s == [] || s[0] < 128 }

  lemma {:induction false} LinesStartAscii(fs: seq<Fields>)
    ensures StreamLines(fs) == [] || Ascii(StreamLines(fs)[0])
  {
    if fs != [] {
      LinesStartAscii(fs[..|fs| - 1]);
      var f := fs[|fs| - 1];
      hide SplitLines, Decimal, FrameLines;
      FrameLinesInOrder(f);
      assert FrameLines(f)[|FrameLines(f)| - 1] == [];
      assert CommentLines(f) != [] ==> Ascii(CommentLines(f)[0]);
      assert IdLines(f) != [] ==> Ascii(IdLines(f)[0]);
      assert DataLines(f) != [] ==> Ascii(DataLines(f)[0]);
      assert RetryLines(f) != [] ==> Ascii(RetryLines(f)[0]);
      assert OptionalLine(EVENT, f.event) != [] ==> Ascii(OptionalLine(EVENT, f.event)[0]);
      hide CommentLines, IdLines, DataLines, RetryLines, OptionalLine;
      assert Ascii(FrameLines(f)[0]);
    }
  }

  /**
   * Round trip: a client that reads the frames of any sequence of events dispatches exactly the
   * events with data, in order, each with its type, its identifier and its payload up to the kind
   * of its line ends; identifiers and reconnection times of the others take effect as well.
   */
  lemma {:induction false} StreamRoundTrip(fs: seq<Fields>, sep: Bytes)
    requires forall i :: 0 <= i < |fs| ==> Sound(fs[i])
    requires IsLineEnd(sep)
    ensures Receive(Stream(fs, sep)) == Understood(fs)
  {
    hide StreamLines, ProcessLines, Understood, Stream, Sound, Interpret;
    StreamOfLines(fs, sep);
    LinesUnderstood(fs);
    LinesComeBack(CONNECTED, StreamLines(fs), sep);
    LinesStartAscii(fs);
    assert !(BOM <= Unlines(StreamLines(fs), sep)) by {
      var s := Unlines(StreamLines(fs), sep);
      if s != [] {
        assert s[0] < 128 && BOM[0] == 0xEF;
      }
    }
  }

}
