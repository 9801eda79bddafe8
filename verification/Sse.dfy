/** Server-sent events as the application builds them, and the renderer that writes them to the wire. */
module Sse {
  import opened Wrappers
  import opened EventStream

  // ---- Events ----

  datatype EventId = Number(value: int) | Text(text: Bytes)

  /** The payload before rendering: none, a Python object for the serializer, or ready-made bytes. */
  datatype Payload<T> = NoData | Object(value: T) | Raw(bytes: Bytes)

  datatype ValueError = DataNotBytes | NoFields | NullByte(field: string) | LineBreak(field: string)

  /** The fields of an event as they go over the wire: strings encoded, the payload serialized. */
  datatype Fields = Fields(
    comment: Option<Bytes>,
    id: Option<EventId>,
    event: Option<Bytes>,
    data: Option<Bytes>,
    retry: Option<int>)

  /** What `check_event_field` establishes for the id and the event name. */
  predicate Sound(f: Fields) {
    && (f.id.Some? && f.id.value.Text? ==> OneLine(f.id.value.text) && 0 !in f.id.value.text)
    && (f.event.Some? ==> OneLine(f.event.value) && 0 !in f.event.value)
  }

  function CheckEventField(text: Bytes, field: string): (r: Option<ValueError>)
    ensures r.None? <==> OneLine(text) && 0 !in text
    ensures 0 in text ==> r == Some(NullByte(field))
    ensures !OneLine(text) && 0 !in text ==> r == Some(LineBreak(field))
  {
    if 0 in text then Some(NullByte(field))
    else if CR in text || LF in text then Some(LineBreak(field))
    else None
  }

  class SSEvent<T(!new)> {
    var data: Payload<T>
    var event: Option<Bytes>
    var id: Option<EventId>
    var retry: Option<int>
    var comment: Option<Bytes>
    var serialize: bool

    constructor (data: Payload<T>, event: Option<Bytes>, id: Option<EventId>, retry: Option<int>,
                 comment: Option<Bytes>, serialize: bool)
      ensures this.data == data && this.event == event && this.id == id
      ensures this.retry == retry && this.comment == comment && this.serialize == serialize
    {
      this.data, this.event, this.id := data, event, id;
      this.retry, this.comment, this.serialize := retry, comment, serialize;
    }

    /** Construction with its checks: the first failing one is reported and there is no object. */
    static method Create(data: Payload<T>, event: Option<Bytes>, id: Option<EventId>, retry: Option<int>,
                         comment: Option<Bytes>, serialize: bool)
      returns (r: Result<SSEvent<T>, ValueError>)
      ensures r.Success? <==>
        && (serialize || data.Raw?)
        && (!data.NoData? || event.Some? || id.Some? || retry.Some? || comment.Some?)
        && (id.Some? && id.value.Text? ==> OneLine(id.value.text) && 0 !in id.value.text)
        && (event.Some? ==> OneLine(event.value) && 0 !in event.value)
      ensures r.Success? ==> fresh(r.value)
      ensures r.Success? ==> r.value.data == data && r.value.event == event && r.value.id == id
      ensures r.Success? ==> r.value.retry == retry && r.value.comment == comment && r.value.serialize == serialize
      ensures r.Success? ==> forall encode :: Sound(r.value.OnWire(encode))
      ensures r.Failure? ==>
        r.error == (
          if !serialize && !data.Raw? then DataNotBytes
          else if data.NoData? && event.None? && id.None? && retry.None? && comment.None? then NoFields
          else if id.Some? && id.value.Text? && CheckEventField(id.value.text, "id").Some? then
            CheckEventField(id.value.text, "id").value
          else CheckEventField(event.value, "event").value)
    {
      if !serialize && !data.Raw? {
        return Failure(DataNotBytes);
      }
      if data.NoData? && event.None? && id.None? && retry.None? && comment.None? {
        return Failure(NoFields);
      }
      if id.Some? && id.value.Text? {
        var error := CheckEventField(id.value.text, "id");
        if error.Some? {
          return Failure(error.value);
        }
      }
      if event.Some? {
        var error := CheckEventField(event.value, "event");
        if error.Some? {
          return Failure(error.value);
        }
      }
      var created := new SSEvent(data, event, id, retry, comment, serialize);
      r := Success(created);
    }

    /** The serializer is only asked when the payload is not to be sent as it is. */
    function OnWire(encode: Payload<T> -> Bytes): Fields
      reads this
    {
      Fields(comment, id, event,
             if data.NoData? then None
             else if !serialize && data.Raw? then Some(data.bytes)
             else Some(encode(data)),
             retry)
    }
  }

  // ---- Text of the fields ----

  function Digits(n: nat): (s: Bytes)
    ensures s != [] && AllDigits(s) && NumberOf(s) == n
    ensures n > 0 ==> s[0] != 48
  {
    var last: byte := (n % 10) as byte + 48;
    if n < 10 then [last]
    else
      var front := Digits(n / 10);
      assert (front + [last])[..|front|] == front;
      front + [last]
  }

  /** `str(n)`: digits, behind a minus sign for a negative number. */
  function Decimal(n: int): (s: Bytes)
    ensures n >= 0 ==> AllDigits(s) && NumberOf(s) == n
    ensures n < 0 ==> s != [] && s[0] == 45 && AllDigits(s[1..]) && NumberOf(s[1..]) == -n
  {
    if n < 0 then [45] + Digits(-n) else Digits(n)
  }

  function IdText(id: EventId): Bytes {
    match id
    case Number(n) => Decimal(n)
    case Text(text) => text
  }

  /** `re.split(rb'\r\n|\r|\n', s)`: the pieces between line breaks, at least one. */
  function SplitLines(s: Bytes): (pieces: seq<Bytes>)
    ensures |pieces| >= 1
    ensures forall i :: 0 <= i < |pieces| ==> OneLine(pieces[i])
  {
    if s == [] then [[]]
    else if s[0] == CR && |s| >= 2 && s[1] == LF then [[]] + SplitLines(s[2..])
    else if IsBreak(s[0]) then [[]] + SplitLines(s[1..])
    else
      var rest := SplitLines(s[1..]);
      [[s[0]] + rest[0]] + rest[1..]
  }

  /** A text without line breaks is one piece, and a line break of any kind ends the first piece. */
  lemma {:induction false} SplitsAtBreaks(line: Bytes, sep: Bytes, rest: Bytes)
    requires OneLine(line) && IsLineEnd(sep)
    requires sep == [CR] ==> rest == [] || rest[0] != LF
    ensures SplitLines(line) == [line]
    ensures SplitLines(line + sep + rest) == [line] + SplitLines(rest)
  {
    var s := line + sep + rest;
    if line == [] {
      assert s[|sep|..] == rest;
    } else {
      assert s[1..] == line[1..] + sep + rest;
      SplitsAtBreaks(line[1..], sep, rest);
      assert [line[0]] + line[1..] == line;
    }
  }

  // ---- The frame of an event ----

  function Prefixed(prefix: Bytes, lines: seq<Bytes>): (r: seq<Bytes>)
    ensures |r| == |lines|
    ensures forall i :: 0 <= i < |r| ==> r[i] == prefix + lines[i]
  {
    if lines == [] then [] else [prefix + lines[0]] + Prefixed(prefix, lines[1..])
  }

  function OptionalLine(name: Bytes, text: Option<Bytes>): seq<Bytes> {
    if text.None? then [] else [name + [COLON, SPACE] + text.value]
  }

  function CommentLines(f: Fields): seq<Bytes> {
    if f.comment.None? then [] else Prefixed([COLON, SPACE], SplitLines(f.comment.value))
  }

  function IdLines(f: Fields): seq<Bytes> {
    OptionalLine(ID, if f.id.None? then None else Some(IdText(f.id.value)))
  }

  function DataLines(f: Fields): seq<Bytes> {
    if f.data.None? then [] else Prefixed(DATA + [COLON, SPACE], SplitLines(f.data.value))
  }

  function RetryLines(f: Fields): seq<Bytes> {
    OptionalLine(RETRY, if f.retry.None? then None else Some(Decimal(f.retry.value)))
  }

  function Concat(parts: seq<seq<Bytes>>): seq<Bytes> {
    if parts == [] then [] else parts[0] + Concat(parts[1..])
  }

  /** The lines of one event, the empty line that completes it included. */
  function FrameLines(f: Fields): seq<Bytes> {
    Concat([CommentLines(f), IdLines(f), OptionalLine(EVENT, f.event), DataLines(f), RetryLines(f), [[]]])
  }

  lemma FrameLinesInOrder(f: Fields)
    ensures FrameLines(f)
      == CommentLines(f) + IdLines(f) + OptionalLine(EVENT, f.event) + DataLines(f) + RetryLines(f) + [[]]
  {
    hide CommentLines, IdLines, DataLines, RetryLines, OptionalLine;
    ConcatSix(CommentLines(f), IdLines(f), OptionalLine(EVENT, f.event), DataLines(f), RetryLines(f), [[]]);
  }

  lemma ConcatSix(a: seq<Bytes>, b: seq<Bytes>, c: seq<Bytes>, d: seq<Bytes>, e: seq<Bytes>, g: seq<Bytes>)
    ensures Concat([a, b, c, d, e, g]) == a + b + c + d + e + g
  {
    assert [a, b, c, d, e, g][1..] == [b, c, d, e, g];
    assert [b, c, d, e, g][1..] == [c, d, e, g];
    assert [c, d, e, g][1..] == [d, e, g];
    assert [d, e, g][1..] == [e, g];
    assert [e, g][1..] == [g];
    assert Concat([g]) == g;
    assert Concat([d, e, g]) == d + (e + g);
    assert Concat([b, c, d, e, g]) == b + (c + (d + (e + g)));
  }

  function Frame(f: Fields, sep: Bytes): Bytes {
    Unlines(FrameLines(f), sep)
  }

  // ---- The renderer ----

  class BytesIO {
    var contents: Bytes

    constructor ()
      ensures contents == []
    {
      contents := [];
    }

    method Write(b: Bytes)
      modifies this
      ensures contents == old(contents) + b
    {
      contents := contents + b;
    }
  }

  /** One line per piece, each with the prefix in front and the separator behind. */
  method WriteChunks(buffer: BytesIO, prefix: Bytes, text: Bytes, sep: Bytes)
    modifies buffer
    ensures buffer.contents == old(buffer.contents) + Unlines(Prefixed(prefix, SplitLines(text)), sep)
  {
    hide SplitLines, Unlines;
    NoLines(sep);
    var chunks := SplitLines(text);
    assert chunks[0..] == chunks;
    var i := 0;
    while i < |chunks|
      invariant 0 <= i <= |chunks|
      invariant buffer.contents + Unlines(Prefixed(prefix, chunks[i..]), sep)
        == old(buffer.contents) + Unlines(Prefixed(prefix, chunks), sep)
    {
      ghost var before := buffer.contents;
      ghost var rest := Unlines(Prefixed(prefix, chunks[i + 1..]), sep);
      PrefixedStep(prefix, chunks[i..], sep);
      assert chunks[i..][1..] == chunks[i + 1..];
      buffer.Write(prefix);
      buffer.Write(chunks[i]);
      buffer.Write(sep);
      assert buffer.contents + rest == before + (prefix + chunks[i] + sep + rest);
      i := i + 1;
    }
  }

  lemma PrefixedStep(prefix: Bytes, lines: seq<Bytes>, sep: Bytes)
    requires lines != []
    ensures Unlines(Prefixed(prefix, lines), sep)
      == prefix + lines[0] + sep + Unlines(Prefixed(prefix, lines[1..]), sep)
  {}

  method WriteLine(buffer: BytesIO, name: Bytes, text: Bytes, sep: Bytes)
    modifies buffer
    ensures buffer.contents == old(buffer.contents) + Unlines(OptionalLine(name, Some(text)), sep)
  {
    ghost var before := buffer.contents;
    buffer.Write(name + [COLON, SPACE]);
    buffer.Write(text);
    buffer.Write(sep);
    var line := name + [COLON, SPACE] + text;
    assert [line][1..] == [];
    assert Unlines([line], sep) == line + sep;
    assert buffer.contents == before + (line + sep);
  }

  /** `_render_event`: writes the fields one after the other into a buffer. */
  method RenderEvent<T(!new)>(e: SSEvent<T>, encode: Payload<T> -> Bytes, sep: Bytes) returns (frame: Bytes)
    ensures frame == Frame(e.OnWire(encode), sep)
  {
    hide Unlines, Prefixed, SplitLines, Frame, FrameLines, Decimal, IdText;
    ghost var f := e.OnWire(encode);
    NoLines(sep);
    FrameParts(f, sep);
    var buffer := new BytesIO();
    if e.comment.Some? {
      WriteChunks(buffer, [COLON, SPACE], e.comment.value, sep);
    }
    ghost var a := Unlines(CommentLines(f), sep);
    assert buffer.contents == a;
    if e.id.Some? {
      WriteLine(buffer, ID, IdText(e.id.value), sep);
    }
    ghost var b := Unlines(IdLines(f), sep);
    assert buffer.contents == a + b;
    if e.event.Some? {
      WriteLine(buffer, EVENT, e.event.value, sep);
    }
    ghost var c := Unlines(OptionalLine(EVENT, f.event), sep);
    assert buffer.contents == a + b + c;
    if !e.data.NoData? {
      var payload := if !e.serialize && e.data.Raw? then e.data.bytes else encode(e.data);
      WriteChunks(buffer, DATA + [COLON, SPACE], payload, sep);
    }
    ghost var d := Unlines(DataLines(f), sep);
    assert buffer.contents == a + b + c + d;
    if e.retry.Some? {
      WriteLine(buffer, RETRY, Decimal(e.retry.value), sep);
    }
    assert buffer.contents == a + b + c + d + Unlines(RetryLines(f), sep);
    buffer.Write(sep);
    frame := buffer.contents;
  }

  lemma NoLines(sep: Bytes)
    ensures Unlines([], sep) == []
  {}

  lemma FrameParts(f: Fields, sep: Bytes)
    ensures Frame(f, sep)
      == Unlines(CommentLines(f), sep) + Unlines(IdLines(f), sep) + Unlines(OptionalLine(EVENT, f.event), sep)
       + Unlines(DataLines(f), sep) + Unlines(RetryLines(f), sep) + sep
  {
    hide CommentLines, IdLines, DataLines, RetryLines, OptionalLine, FrameLines, Unlines;
    FrameLinesInOrder(f);
    UnlinesSix(CommentLines(f), IdLines(f), OptionalLine(EVENT, f.event), DataLines(f), RetryLines(f), sep);
  }

  lemma UnlinesSix(a: seq<Bytes>, b: seq<Bytes>, c: seq<Bytes>, d: seq<Bytes>, e: seq<Bytes>, sep: Bytes)
    ensures Unlines(a + b + c + d + e + [[]], sep)
      == Unlines(a, sep) + Unlines(b, sep) + Unlines(c, sep) + Unlines(d, sep) + Unlines(e, sep) + sep
  {
    assert Unlines([[]], sep) == sep by {
      assert Unlines([[]], sep) == [] + sep + Unlines([], sep);
    }
    hide Unlines;
    UnlinesAppend(a, b, sep);
    UnlinesAppend(a + b, c, sep);
    UnlinesAppend(a + b + c, d, sep);
    UnlinesAppend(a + b + c + d, e, sep);
    UnlinesAppend(a + b + c + d + e, [[]], sep);
  }

}
