/**
 * From the event objects of the application to the client. What arrives is stated on the attributes of
 * the objects themselves.
 */
module SseDelivery {
  import opened Wrappers
  import opened EventStream
  import opened Sse
  import opened SseRoundTrip
  import opened PingInvisibility

  /** What the constructor checked about the attributes that go out as single lines. */
  ghost predicate Checked<T(!new)>(e: SSEvent<T>)
    reads e
  {
    && (e.id.Some? && e.id.value.Text? ==> OneLine(e.id.value.text) && 0 !in e.id.value.text)
    && (e.event.Some? ==> OneLine(e.event.value) && 0 !in e.event.value)
  }

  /** The payload that is due: raw bytes go out as they are if the event says so, all else is serialized. */
  function PayloadDue<T(!new)>(e: SSEvent<T>, encode: Payload<T> -> Bytes): Option<Bytes>
    reads e
  {
    match e.data
    case NoData => None
    case Raw(bytes) => Some(if e.serialize then encode(e.data) else bytes)
    case Object(_) => Some(encode(e.data))
  }

  /**
   * The client after the event: its id and its retry time take effect, and if it has data a message
   * arrives with its event name and its payload, line ends turned into line feeds.
   */
  ghost predicate Arrived<T(!new)>(before: Client, e: SSEvent<T>, encode: Payload<T> -> Bytes, after: Client)
    reads e
  {
    && (e.id.None? ==> after.lastEventId == before.lastEventId)
    && (e.id.Some? && e.id.value.Text? ==> after.lastEventId == e.id.value.text)
    && (e.id.Some? && e.id.value.Number? && e.id.value.value >= 0 ==>
          AllDigits(after.lastEventId) && NumberOf(after.lastEventId) == e.id.value.value)
    && (e.id.Some? && e.id.value.Number? && e.id.value.value < 0 ==>
          after.lastEventId != [] && after.lastEventId[0] == 45 && AllDigits(after.lastEventId[1..])
          && NumberOf(after.lastEventId[1..]) == -e.id.value.value)
    && after.reconnectionTime
       == (if e.retry.Some? && e.retry.value >= 0 then Some(e.retry.value) else before.reconnectionTime)
    && after.messages
       == (if e.data.NoData? then before.messages
           else before.messages + [Message(
             if e.event.None? || e.event.value == [] then MESSAGE else e.event.value,
             Normalized(PayloadDue(e, encode).value),
             after.lastEventId)])
  }

  /** One client for every event sent so far, each made of the one before by its event. */
  ghost predicate ArrivedAll<T(!new)>(events: seq<SSEvent<T>>, encode: Payload<T> -> Bytes, clients: seq<Client>)
    reads set e | e in events
  {
    && |clients| == |events| + 1
    && clients[0] == CONNECTED
    && forall i :: 0 <= i < |events| ==> Arrived(clients[i], events[i], encode, clients[i + 1])
  }

  lemma OneArrives<T(!new)>(fs: seq<Fields>, e: SSEvent<T>, encode: Payload<T> -> Bytes)
    ensures Arrived(Understood(fs), e, encode, Understood(fs + [e.OnWire(encode)]))
  {
    var f := e.OnWire(encode);
    assert (fs + [f])[..|fs|] == fs;
    hide Normalized, Decimal;
  }

  lemma SoundOnWire<T(!new)>(e: SSEvent<T>, encode: Payload<T> -> Bytes)
    requires Checked(e)
    ensures Sound(e.OnWire(encode))
  {}

  // ---- Comments ----

  /** All lines of a stream, those included that have no meaning. */
  function ReadLines(s: Bytes): seq<Bytes>
    decreases |s|
  {
    match NextLine(s)
    case None => []
    case Some((line, rest)) => [line] + ReadLines(rest)
  }

  lemma {:induction false} WrittenLinesRead(lines: seq<Bytes>, sep: Bytes)
    requires SingleLines(lines) && IsLineEnd(sep)
    ensures ReadLines(Unlines(lines, sep)) == lines
  {
    if lines != [] {
      StartsWithoutLF(lines[1..]);
      LineComesBack(lines[0], sep, Unlines(lines[1..], sep));
      WrittenLinesRead(lines[1..], sep);
    }
  }

  /** The texts of the comment lines: those that begin with a colon. */
  function CommentsIn(lines: seq<Bytes>): seq<Bytes> {
    if lines == [] then []
    else
      (if lines[0] != [] && lines[0][0] == COLON then [WithoutLeadingSpace(lines[0][1..])] else [])
      + CommentsIn(lines[1..])
  }

  lemma {:induction false} CommentsAppend(a: seq<Bytes>, b: seq<Bytes>)
    ensures CommentsIn(a + b) == CommentsIn(a) + CommentsIn(b)
  {
    if a == [] {
      assert a + b == b;
    } else {
      assert (a + b)[1..] == a[1..] + b;
      CommentsAppend(a[1..], b);
    }
  }

  lemma {:induction false} CommentsFound(pieces: seq<Bytes>)
    ensures CommentsIn(Prefixed([COLON, SPACE], pieces)) == pieces
  {
    if pieces != [] {
      CommentsFound(pieces[1..]);
      assert ([COLON, SPACE] + pieces[0])[1..] == [SPACE] + pieces[0];
      assert ([SPACE] + pieces[0])[1..] == pieces[0];
    }
  }

  lemma {:induction false} NoComments(lines: seq<Bytes>)
    requires forall i :: 0 <= i < |lines| ==> lines[i] == [] || lines[i][0] != COLON
    ensures CommentsIn(lines) == []
  {
    if lines != [] {
      NoComments(lines[1..]);
    }
  }

  /** The lines of the comment, as the attribute has them. */
  function CommentDue<T(!new)>(e: SSEvent<T>): seq<Bytes>
    reads e
  {
    if e.comment.None? then [] else SplitLines(e.comment.value)
  }

  lemma CommentWritten<T(!new)>(e: SSEvent<T>, encode: Payload<T> -> Bytes)
    ensures CommentsIn(FrameLines(e.OnWire(encode))) == CommentDue(e)
  {
    var f := e.OnWire(encode);
    NoCommentParts(f);
    hide CommentsIn, SplitLines, FrameLines, IdLines, DataLines, RetryLines, OptionalLine;
    FrameLinesInOrder(f);
    var a, b, c, d := CommentLines(f), IdLines(f), OptionalLine(EVENT, f.event), DataLines(f);
    CommentsAppend(a, b);
    CommentsAppend(a + b, c);
    CommentsAppend(a + b + c, d);
    CommentsAppend(a + b + c + d, RetryLines(f));
    CommentsAppend(a + b + c + d + RetryLines(f), [[]]);
    if f.comment.Some? {
      CommentsFound(SplitLines(f.comment.value));
    } else {
      CommentsFound([]);
    }
  }

  lemma NoCommentParts(f: Fields)
    ensures CommentsIn(IdLines(f)) == CommentsIn(OptionalLine(EVENT, f.event)) == CommentsIn(DataLines(f)) == []
    ensures CommentsIn(RetryLines(f)) == CommentsIn([[]]) == []
  {
    hide CommentsIn, SplitLines, Decimal;
    NoComments(IdLines(f));
    NoComments(OptionalLine(EVENT, f.event));
    NoComments(DataLines(f));
    NoComments(RetryLines(f));
    NoComments([[]]);
  }

  // ---- Sending ----

  function CommentsDue<T(!new)>(events: seq<SSEvent<T>>): seq<Bytes>
    reads set e | e in events
  {
    if events == [] then [] else CommentsDue(events[..|events| - 1]) + CommentDue(events[|events| - 1])
  }

  /**
   * Renders one event after the other. A client that reads the bytes gets every event as its object has
   * it, and whoever reads the comments finds those of the objects.
   */
  method SendEvents<T(!new)>(events: seq<SSEvent<T>>, encode: Payload<T> -> Bytes, sep: Bytes)
    returns (stream: Bytes, ghost clients: seq<Client>)
    requires IsLineEnd(sep) && forall i :: 0 <= i < |events| ==> Checked(events[i])
    ensures ArrivedAll(events, encode, clients) && Receive(stream) == clients[|events|]
    ensures CommentsIn(ReadLines(stream)) == CommentsDue(events)
  {
    hide Receive, Understood, Stream, Arrived, Frame, StreamLines, CommentsIn, CommentDue, ReadLines, Sound, Checked;
    hide FrameLines, SingleLines, Unlines;
    ghost var fs: seq<Fields> := [];
    stream, clients := [], [Understood([])];
    NothingSent(sep);
    var i := 0;
    while i < |events|
      invariant 0 <= i <= |events| && |fs| == i
      invariant stream == Stream(fs, sep) && forall k :: 0 <= k < i ==> Sound(fs[k])
      invariant ArrivedAll(events[..i], encode, clients) && clients[i] == Understood(fs)
      invariant CommentsIn(StreamLines(fs)) == CommentsDue(events[..i])
    {
      ghost var f := events[i].OnWire(encode);
      var frame := RenderEvent(events[i], encode, sep);
      SoundOnWire(events[i], encode);
      OneArrives(fs, events[i], encode);
      CommentWritten(events[i], encode);
      StreamGrows(fs, f, sep);
      CommentsAppend(StreamLines(fs), FrameLines(f));
      assert events[..i + 1][..i] == events[..i];
      stream := stream + frame;
      fs := fs + [f];
      clients := clients + [Understood(fs)];
      i := i + 1;
    }
    assert events[..i] == events;
    StreamRoundTrip(fs, sep);
    StreamOfLines(fs, sep);
    LinesUnderstood(fs);
    WrittenLinesRead(StreamLines(fs), sep);
  }

  lemma NothingSent(sep: Bytes)
    ensures Understood([]) == CONNECTED && Stream([], sep) == [] && StreamLines([]) == [] && CommentsIn([]) == []
  {}

  lemma StreamGrows(fs: seq<Fields>, f: Fields, sep: Bytes)
    ensures Stream(fs + [f], sep) == Stream(fs, sep) + Frame(f, sep)
    ensures StreamLines(fs + [f]) == StreamLines(fs) + FrameLines(f)
  {
    assert (fs + [f])[..|fs|] == fs;
  }

  // ---- The names on the wire ----

  /** The bytes of an ASCII text. */
  function Ascii(text: string): Bytes
    requires forall i :: 0 <= i < |text| ==> text[i] as int < 128
  {
    if text == "" then [] else [text[0] as int as byte] + Ascii(text[1..])
  }

  lemma {:induction false} NamesOnTheWire()
    ensures ID == Ascii("id") && EVENT == Ascii("event") && DATA == Ascii("data") && RETRY == Ascii("retry")
    ensures MESSAGE == Ascii("message") && [COLON, SPACE] == Ascii(": ") && [CR, LF] == Ascii("\r\n")
    ensures PING == Fields(Some(Ascii("ping")), None, None, None, None)
  {
    assert EVENT == [101] + ([118] + ([101] + ([110] + ([116] + []))));
    assert [112, 105, 110, 103] == [112] + ([105] + ([110] + ([103] + [])));
    assert DATA == [100] + ([97] + ([116] + ([97] + [])));
    assert RETRY == [114] + ([101] + ([116] + ([114] + ([121] + []))));
    assert MESSAGE == [109] + ([101] + ([115] + ([115] + ([97] + ([103] + ([101] + []))))));
  }
}
