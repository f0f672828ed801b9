/** Chunked transfer coding (section 4.1 of RFC 7230): writer, line reader and reader. */
module Chunked {
  import opened HexNumbers

  const RECV_BUFSIZ: nat := 4096
  const CRLF := "\r\n"

  // ----- streams -----

  /** A connection one reads from.  A read hands over some of what is left, never more than asked for: every way
      of splitting the data is a behaviour of Read. */
  class InStream {
    var rest: string
    const faulty: bool

    constructor (data: string, faulty: bool)
      ensures rest == data && this.faulty == faulty
    {
      rest := data;
      this.faulty := faulty;
    }

    method Read(max: nat) returns (n: int, buf: string)
      requires max > 0
      modifies this
      ensures n == -1 ==> faulty && rest == old(rest)
      ensures n != -1 ==> n == |buf| <= max && old(rest) == buf + rest && (n == 0 ==> old(rest) == "")
    {
      var some, fails :| (rest != "" ==> 0 < some <= max) && 0 <= some <= |rest| && some <= max && (fails ==> faulty);
      if fails {
        return -1, "";
      }
      n, buf, rest := some, rest[..some], rest[some..];
    }
  }

  /** A connection one writes to: a write takes at least one character, perhaps not all. */
  class OutStream {
    var out: string
    const faulty: bool

    constructor (faulty: bool)
      ensures out == "" && this.faulty == faulty
    {
      out := "";
      this.faulty := faulty;
    }

    method Write(d: string) returns (n: int)
      requires |d| > 0
      modifies this
      ensures n == -1 ==> faulty && out == old(out)
      ensures n != -1 ==> 1 <= n <= |d| && out == old(out) + d[..n]
    {
      var some, fails :| 1 <= some <= |d| && (fails ==> faulty);
      if fails {
        return -1;
      }
      n, out := some, out + d[..some];
    }
  }

  /** `write_data`: all of it, or false. */
  method WriteData(strm: OutStream, d: string) returns (ok: bool)
    modifies strm
    ensures ok ==> strm.out == old(strm.out) + d
    ensures !ok ==> strm.faulty
  {
    var offset := 0;
    while offset < |d|
      invariant offset <= |d| && strm.out == old(strm.out) + d[..offset]
    {
      var length := strm.Write(d[offset..]);
      if length < 0 {
        return false;
      }
      assert d[..offset] + d[offset..][..length] == d[..offset + length];
      offset := offset + length;
    }
    assert d[..offset] == d;
    return true;
  }

  /** Where decoded content goes; a receiver that is not willing may stop the transfer. */
  class Receiver {
    var body: string
    const willing: bool

    constructor (willing: bool)
      ensures body == "" && this.willing == willing
    {
      body := "";
      this.willing := willing;
    }

    method Receive(d: string) returns (more: bool)
      modifies this
      ensures body == old(body) + d && (!more ==> !willing)
    {
      body := body + d;
      var stop :| stop ==> !willing;
      more := !stop;
    }
  }

  // ----- lines -----

  /** The length of the first line, with its newline; all of `s` when there is none. */
  function LineLength(s: string): (n: nat)
    ensures n <= |s| && (s != "" ==> n > 0)
  {
    if s == "" then 0 else if s[0] == '\n' then 1 else 1 + LineLength(s[1..])
  }

  function Line(s: string): string { s[..LineLength(s)] }

  function AfterLine(s: string): string { s[LineLength(s)..] }

  /** What C code sees of a buffer: everything before the first null character. */
  function CString(s: string): string {
    if s == "" || s[0] == '\0' then "" else [s[0]] + CString(s[1..])
  }

  lemma {:induction false} CStringEnds(s: string, t: string)
    ensures CString(s + ['\0'] + t) == CString(s)
  {
    if s == "" {
      assert s + ['\0'] + t == ['\0'] + t;
    } else {
      assert (s + ['\0'] + t)[1..] == s[1..] + ['\0'] + t;
      CStringEnds(s[1..], t);
    }
  }

  /** A C string ends before the first null character, or with the buffer. */
  lemma {:induction false} CStringIs(s: string, t: string)
    requires forall k :: 0 <= k < |s| ==> s[k] as int != 0
    ensures CString(s) == s && CString(s + ['\0'] + t) == s
  {
    CStringEnds(s, t);
    if s != "" {
      CStringIs(s[1..], t);
    }
  }

  lemma {:induction false} FirstLine(s: string, t: string)
    requires forall k :: 0 <= k < |s| ==> s[k] != '\n'
    ensures Line(s + "\n" + t) == s + "\n" && AfterLine(s + "\n" + t) == t
  {
    if s == "" {
      assert s + "\n" + t == "\n" + t;
    } else {
      var u := s + "\n" + t;
      assert u[1..] == s[1..] + "\n" + t;
      FirstLine(s[1..], t);
      assert Line(u) == [u[0]] + Line(u[1..]);
    }
  }

  lemma {:induction false} LineGrows(s: string, n: nat)
    requires n < LineLength(s)
    ensures s[n] == '\n' ==> n + 1 == LineLength(s)
    ensures n + 1 == LineLength(s) && s[n] != '\n' ==> n + 1 == |s|
  {
    if n > 0 {
      LineGrows(s[1..], n - 1);
    }
  }

  /** One line at a time, in a buffer of fixed size for as long as it fits and in a string from then on. */
  class LineReader {
    const strm: InStream
    const fixedBuffer: array<char>
    const fixedBufferSize: nat
    var fixedBufferUsedSize: nat
    var growableBuffer: string

    ghost predicate Valid()
      reads this, fixedBuffer
    {
      && 2 <= fixedBufferSize <= fixedBuffer.Length && fixedBufferUsedSize < fixedBufferSize
      && (fixedBufferUsedSize > 0 ==> fixedBuffer[fixedBufferUsedSize] == '\0')
      && (growableBuffer != "" ==> fixedBufferUsedSize == fixedBufferSize - 1)
    }

    /** The line, `size()` characters from `ptr()`. */
    function Text(): string
      requires Valid()
      reads this, fixedBuffer
    {
      if growableBuffer == "" then fixedBuffer[..fixedBufferUsedSize] else growableBuffer
    }

    /** All the memory from `ptr()` on. */
    function Ptr(): string
      reads this, fixedBuffer
    {
      if growableBuffer == "" then fixedBuffer[..] else growableBuffer + "\0"
    }

    constructor (strm: InStream, fixedBuffer: array<char>, fixedBufferSize: nat)
      requires 2 <= fixedBufferSize <= fixedBuffer.Length
      ensures Valid() && this.strm == strm && this.fixedBuffer == fixedBuffer && Text() == ""
    {
      this.strm := strm;
      this.fixedBuffer := fixedBuffer;
      this.fixedBufferSize := fixedBufferSize;
      fixedBufferUsedSize := 0;
      growableBuffer := "";
    }

    method Append(c: char)
      requires Valid()
      modifies this, fixedBuffer
      ensures Valid() && Text() == old(Text()) + [c]
    {
      if fixedBufferUsedSize < fixedBufferSize - 1 {
        fixedBuffer[fixedBufferUsedSize] := c;
        fixedBufferUsedSize := fixedBufferUsedSize + 1;
        fixedBuffer[fixedBufferUsedSize] := '\0';
      } else {
        if growableBuffer == "" {
          assert fixedBuffer[fixedBufferUsedSize] == '\0';
          growableBuffer := fixedBuffer[..fixedBufferUsedSize];
        }
        growableBuffer := growableBuffer + [c];
      }
    }

    /** What a C string function reads at `ptr()` is the line, up to a null character of its own. */
    lemma PtrIsText()
      requires Valid() && Text() != ""
      ensures CString(Ptr()) == CString(Text())
    {
      if growableBuffer == "" {
        assert Ptr() == Text() + ['\0'] + fixedBuffer[fixedBufferUsedSize + 1..];
        CStringEnds(Text(), fixedBuffer[fixedBufferUsedSize + 1..]);
      } else {
        assert Ptr() == Text() + ['\0'] + "";
        CStringEnds(Text(), "");
      }
    }

    /** `strtoul(ptr(), &end, 16)` */
    method Size() returns (size: Number)
      requires Valid() && Text() != ""
      ensures size == StrToUl(CString(Text()))
    {
      PtrIsText();
      size := StrToUl(CString(Ptr()));
    }

    /** `strcmp(ptr(), "\r\n") == 0` */
    method IsCrlf() returns (yes: bool)
      requires Valid() && Text() != ""
      ensures yes <==> CString(Text()) == CRLF
    {
      PtrIsText();
      yes := CString(Ptr()) == CRLF;
    }

    /** `getline`: the next line, whatever was in the buffers before. */
    method GetLine() returns (ok: bool)
      requires Valid()
      modifies this, fixedBuffer, strm
      ensures Valid() && (ok ==> old(strm.rest) != "" && Text() != "")
      ensures ok ==> Text() == Line(old(strm.rest)) && strm.rest == AfterLine(old(strm.rest))
      ensures !ok ==> strm.faulty || (old(strm.rest) == "" && strm.rest == "")
    {
      fixedBufferUsedSize := 0;
      growableBuffer := "";
      ghost var s := strm.rest;
      var i := 0;
      while true
        invariant Valid() && i <= |s| && Text() == s[..i] && strm.rest == s[i..]
        invariant i < LineLength(s) || i == LineLength(s) == |s|
        decreases |s| - i
      {
        var n, buf := strm.Read(1);
        if n < 0 {
          return false;
        } else if n == 0 {
          if i == 0 {
            return false;
          }
          assert i == |s|;
          break;
        }
        LineGrows(s, i);
        assert buf[0] == s[i] && s[i..][1..] == s[i + 1..];
        Append(buf[0]);
        i := i + 1;
        if buf[0] == '\n' { break; }
      }
      return true;
    }
  }

  // ----- reading -----

  datatype Outcome = Outcome(ok: bool, body: string, rest: string)

  /** What the reader makes of a stream holding `s`: success or not, the content, what is left in the stream. */
  function Decode(s: string): Outcome
    decreases |s|, 1
  {
    if s == "" then Outcome(false, "", "") else DecodeFrom(Line(s), AfterLine(s))
  }

  /** The same, once `line` has been read. */
  function DecodeFrom(line: string, s: string): Outcome
    decreases |s|, 0
  {
    var size := StrToUl(CString(line));
    if size.NoDigits? || size.value == ULONG_MAX then Outcome(false, "", s)
    else if size.value == 0 then Trailer(s)
    else if |s| < size.value then Outcome(false, s, "")
    else
      var (chunk, r) := (s[..size.value], s[size.value..]);
      if r == "" then Outcome(false, chunk, "")
      else if CString(Line(r)) != CRLF then Outcome(true, chunk, AfterLine(r))
      else
        Prepend(chunk, Decode(AfterLine(r)))
  }

  function Prepend(chunk: string, o: Outcome): Outcome { o.(body := chunk + o.body) }

  function Trailer(s: string): Outcome {
    if s == "" then Outcome(false, "", "") else Outcome(CString(Line(s)) == CRLF, "", AfterLine(s))
  }

  method ReadContentWithLength(strm: InStream, len: nat, receiver: Receiver) returns (ok: bool)
    modifies strm, receiver
    ensures ok ==> len <= |old(strm.rest)|
    ensures old(receiver.body) <= receiver.body
    ensures ok ==> receiver.body == old(receiver.body) + old(strm.rest)[..len] && strm.rest == old(strm.rest)[len..]
    ensures !ok ==> strm.faulty || !receiver.willing || |old(strm.rest)| < len
    ensures !ok && !strm.faulty && receiver.willing ==>
      receiver.body == old(receiver.body) + old(strm.rest) && strm.rest == ""
  {
    ghost var s := strm.rest;
    var r := 0;
    while r < len
      invariant r <= len && r <= |s| && strm.rest == s[r..] && receiver.body == old(receiver.body) + s[..r]
      decreases len - r
    {
      var readLen := len - r;
      var n, buf := strm.Read(if readLen < RECV_BUFSIZ then readLen else RECV_BUFSIZ);
      if n <= 0 {
        assert n == 0 ==> s[..r] == s;
        return false;
      }
      assert s[..r + n] == s[..r] + buf;
      var more := receiver.Receive(buf);
      if !more {
        return false;
      }
      r := r + n;
    }
    return true;
  }

  lemma PrependTwice(a: string, b: string, o: Outcome)
    ensures Prepend(a, Prepend(b, o)) == Prepend(a + b, o)
  {
    assert a + (b + o.body) == (a + b) + o.body;
  }

  datatype Turn = Failed | LastChunk | NextLine

  /** One turn of the loop from the size on: the chunk, its end of line, the next line. */
  method ReadChunk(reader: LineReader, receiver: Receiver, chunkLen: nat) returns (turn: Turn, ghost chunk: string)
    requires reader.Valid() && reader.Text() != "" && reader.fixedBuffer.Length == 16
    requires StrToUl(CString(reader.Text())) == Number(chunkLen) && 0 < chunkLen < ULONG_MAX
    modifies reader, reader.fixedBuffer, reader.strm, receiver
    ensures reader.Valid() && receiver.body == old(receiver.body) + chunk
    ensures var o := DecodeFrom(old(reader.Text()), old(reader.strm.rest));
      match turn
      case Failed => reader.strm.faulty || !receiver.willing || o == Outcome(false, chunk, reader.strm.rest)
      case LastChunk => o == Outcome(true, chunk, reader.strm.rest)
      case NextLine =>
        && reader.Text() != "" && |reader.strm.rest| < |old(reader.strm.rest)|
        && o == Prepend(chunk, DecodeFrom(reader.Text(), reader.strm.rest))
  {
    hide LineReader.Text, LineReader.Valid, LineLength, StrToUl, CString;
    ghost var s, got := reader.strm.rest, receiver.body;
    turn, chunk := Failed, "";
    var ok := ReadContentWithLength(reader.strm, chunkLen, receiver);
    chunk := receiver.body[|got|..];
    if !ok { return; }
    ok := reader.GetLine();
    if !ok { return; }
    var crlf := reader.IsCrlf();
    if !crlf { return LastChunk, chunk; }
    ok := reader.GetLine();
    if !ok { return; }
    turn := NextLine;
  }

  method ReadContentChunked(strm: InStream, receiver: Receiver) returns (ok: bool)
    modifies strm, receiver
    ensures var o := Decode(old(strm.rest));
      ok || (!strm.faulty && receiver.willing) ==>
        ok == o.ok && receiver.body == old(receiver.body) + o.body && strm.rest == o.rest
  {
    hide LineReader.Text, LineReader.Valid, LineLength, StrToUl, CString;
    var buf := new char[16];
    var reader := new LineReader(strm, buf, 16);
    ok := reader.GetLine();
    if !ok { return; }
    var chunkLen := 0;
    ghost var done := "";
    while true
      invariant reader.Valid() && reader.strm == strm && fresh(reader) && reader.fixedBuffer == buf
      invariant reader.Text() != ""
      invariant receiver.body == old(receiver.body) + done
      invariant Decode(old(strm.rest)) == Prepend(done, DecodeFrom(reader.Text(), strm.rest))
      decreases |strm.rest|
    {
      var size := reader.Size();
      if size.NoDigits? { return false; }
      chunkLen := size.value;
      if chunkLen == ULONG_MAX { return false; }
      if chunkLen == 0 { break; }
      ghost var o := DecodeFrom(reader.Text(), strm.rest);
      var turn, chunk := ReadChunk(reader, receiver, chunkLen);
      PrependTwice(done, chunk, DecodeFrom(reader.Text(), strm.rest));
      done := done + chunk;
      if turn == Failed { return false; }
      if turn == LastChunk { break; }
    }
    if chunkLen == 0 {
      ok := reader.GetLine();
      if !ok { return; }
      var crlf := reader.IsCrlf();
      if !crlf { return false; }
    }
    return true;
  }

  // ----- writing -----

  /** What a content provider does to the sink it is given. */
  datatype Event = Write(d: string) | Done

  const MARKER := "0\r\n\r\n"

  function Emit(e: Event): string {
    match e
    case Write(d) => if d == "" then "" else Hex(|d|) + CRLF + d + CRLF
    case Done => MARKER
  }

  function Emitted(events: seq<Event>): string {
    if |events| == 0 then "" else Emit(events[0]) + Emitted(events[1..])
  }

  lemma {:induction false} EmittedMore(a: seq<Event>, b: seq<Event>)
    ensures Emitted(a + b) == Emitted(a) + Emitted(b)
  {
    if |a| == 0 {
      assert a + b == b;
    } else {
      assert (a + b)[1..] == a[1..] + b;
      EmittedMore(a[1..], b);
    }
  }

  lemma EmittedOne(a: seq<Event>, e: Event)
    ensures Emitted(a + [e]) == Emitted(a) + Emit(e)
  {
    EmittedMore(a, [e]);
    assert [e][1..] == [];
  }

  /** More data is expected until a call writes nothing or says it is done. */
  predicate Available(events: seq<Event>) {
    |events| > 0 ==> var e := events[|events| - 1]; e.Write? && e.d != ""
  }

  lemma AfterEvent(before: string, a: seq<Event>, e: Event)
    ensures before + Emitted(a + [e]) == before + Emitted(a) + Emit(e) && |Emitted(a + [e])| == |Emitted(a)| + |Emit(e)|
    ensures Available(a + [e]) <==> e.Write? && e.d != ""
  {
    hide Emitted, Emit;
    EmittedOne(a, e);
    assert before + (Emitted(a) + Emit(e)) == before + Emitted(a) + Emit(e);
  }

  lemma WriteEmits(d: string)
    ensures Emit(Write(d)) == if |d| > 0 then Hex(|d|) + CRLF + d + CRLF else ""
  {
  }

  lemma DoneEmits()
    ensures Emit(Done) == MARKER
  {
  }

  class DataSink {
    const strm: OutStream
    var dataAvailable: bool
    var ok: bool
    var offset: nat
    var totalWrittenLength: nat
    ghost var events: seq<Event>
    ghost const before: string

    ghost predicate Valid()
      reads this, strm
    {
      if ok then
        && dataAvailable == Available(events) && strm.out == before + Emitted(events)
        && totalWrittenLength == |Emitted(events)|
      else strm.faulty
    }

    constructor (strm: OutStream)
      ensures Valid() && ok && this.strm == strm && events == [] && before == strm.out
    {
      this.strm := strm;
      dataAvailable, ok, offset, totalWrittenLength := true, true, 0, 0;
      events := [];
      before := strm.out;
    }

    method Send(chunk: string)
      modifies `ok, `totalWrittenLength, strm
      ensures ok ==>
        strm.out == old(strm.out) + chunk && totalWrittenLength == old(totalWrittenLength) + |chunk| && old(ok)
      ensures !ok && old(ok) ==> strm.faulty
    {
      var sent := WriteData(strm, chunk);
      if sent {
        totalWrittenLength := totalWrittenLength + |chunk|;
      } else {
        ok := false;
      }
    }

    /** `data_sink.write`, without a compressor. */
    method Write(d: string)
      requires Valid()
      modifies this, strm
      ensures Valid() && (ok ==> old(ok) && events == old(events) + [Event.Write(d)] && offset == old(offset) + |d|)
    {
      hide Emitted, Emit, Available, Hex;
      if !ok { return; }
      ghost var e := Event.Write(d);
      AfterEvent(before, events, e);
      events := events + [e];
      dataAvailable := |d| > 0;
      offset := offset + |d|;
      WriteEmits(d);
      if |d| > 0 {
        var hex := FromIToHex(|d|);
        Send(hex + CRLF + d + CRLF);
      }
    }

    /** `data_sink.done`, without a compressor. */
    method Finish()
      requires Valid()
      modifies this, strm
      ensures Valid() && (ok ==> old(ok) && events == old(events) + [Done])
    {
      hide Emitted, Emit, Available;
      if !ok { return; }
      AfterEvent(before, events, Done);
      DoneEmits();
      events := events + [Done];
      dataAvailable := false;
      Send(MARKER);
    }
  }

  /** One call of the content provider: what it does, whether it returns true, and whether the server is already
      shutting down before the call. */
  datatype Call = Call(down: bool, does: seq<Event>, more: bool)

  function Events(calls: seq<Call>): seq<Event> {
    if |calls| == 0 then [] else Events(calls[..|calls| - 1]) + calls[|calls| - 1].does
  }

  method Provide(sink: DataSink, does: seq<Event>)
    requires sink.Valid()
    modifies sink, sink.strm
    ensures sink.Valid() && (sink.ok ==> old(sink.ok) && sink.events == old(sink.events) + does)
  {
    hide DataSink.Valid;
    for j := 0 to |does|
      invariant sink.Valid() && (sink.ok ==> old(sink.ok) && sink.events == old(sink.events) + does[..j])
    {
      assert does[..j + 1] == does[..j] + [does[j]];
      match does[j] {
        case Write(d) => sink.Write(d);
        case Done => sink.Finish();
      }
    }
    assert does[..|does|] == does;
  }

  /** `write_content_chunked`: the provider is called until the data ends or the server goes down; the
      last call listed is the last before shutdown. */
  method WriteContentChunked(strm: OutStream, calls: seq<Call>) returns (total: int, k: nat)
    modifies strm
    ensures k <= |calls| && forall j :: 0 <= j < k ==> !calls[j].down && Available(Events(calls[..j]))
    ensures total != -1 ==>
      strm.out == old(strm.out) + Emitted(Events(calls[..k])) && total == |strm.out| - |old(strm.out)|
    ensures total != -1 && k < |calls| ==> calls[k].down || !Available(Events(calls[..k]))
    ensures total == -1 ==> strm.faulty || (k < |calls| && !calls[k].more)
  {
    hide DataSink.Valid, Available;
    var sink := new DataSink(strm);
    Facts(sink);
    k := 0;
    while sink.dataAvailable && k < |calls| && !calls[k].down
      invariant k <= |calls| && sink.Valid() && fresh(sink) && sink.strm == strm && sink.ok
      invariant sink.before == old(strm.out)
      invariant sink.events == Events(calls[..k]) && sink.dataAvailable == Available(sink.events)
      invariant forall j :: 0 <= j < k ==> !calls[j].down && Available(Events(calls[..j]))
      decreases |calls| - k
    {
      Provide(sink, calls[k].does);
      Facts(sink);
      if !calls[k].more { return -1, k; }
      if !sink.ok { return -1, k; }
      assert calls[..k + 1][..k] == calls[..k];
      k := k + 1;
    }
    Facts(sink);
    total := sink.totalWrittenLength;
  }

  lemma Facts(sink: DataSink)
    requires sink.Valid()
    ensures sink.ok ==>
      sink.strm.out == sink.before + Emitted(sink.events) && sink.totalWrittenLength == |Emitted(sink.events)|
    ensures sink.ok ==> sink.dataAvailable == Available(sink.events)
    ensures !sink.ok ==> sink.strm.faulty
  {
  }

  // ----- there and back -----

  function Concat(ds: seq<string>): string {
    if |ds| == 0 then "" else ds[0] + Concat(ds[1..])
  }

  function Writes(ds: seq<string>): seq<Event> {
    seq(|ds|, i requires 0 <= i < |ds| => Write(ds[i]))
  }

  /** The body of a transfer: these writes, then done. */
  function Encoded(ds: seq<string>): string {
    Emitted(Writes(ds) + [Done])
  }

  lemma EncodedStep(ds: seq<string>)
    ensures |ds| == 0 ==> Encoded(ds) == MARKER
    ensures |ds| > 0 ==> Encoded(ds) == Emit(Write(ds[0])) + Encoded(ds[1..])
  {
    var es := Writes(ds) + [Done];
    if |ds| > 0 {
      assert es[1..] == Writes(ds[1..]) + [Done];
    } else {
      assert es == [Done] && es[1..] == [];
      assert Emitted(es) == Emit(Done) + Emitted([]);
      assert MARKER + "" == MARKER;
    }
  }

  /** The size line in front of a chunk reads back as the size. */
  lemma SizeLine(n: nat, t: string)
    requires n <= ULONG_MAX
    ensures Line(Hex(n) + CRLF + t) == Hex(n) + CRLF && AfterLine(Hex(n) + CRLF + t) == t
    ensures StrToUl(CString(Hex(n) + CRLF)) == Number(n)
  {
    HexIsDigits(n);
    var h := Hex(n) + "\r";
    assert Hex(n) + CRLF + t == h + "\n" + t && Hex(n) + CRLF == h + "\n";
    FirstLine(h, t);
    NoNull(Hex(n) + CRLF);
    HexRoundTrip(n, CRLF);
  }

  lemma {:induction false} NoNull(s: string)
    requires forall k :: 0 <= k < |s| ==> s[k] != '\0'
    ensures CString(s) == s
  {
    if s != "" {
      NoNull(s[1..]);
    }
  }

  lemma BlankLine(t: string)
    ensures Line(CRLF + t) == CRLF && AfterLine(CRLF + t) == t && CString(CRLF) == CRLF
  {
    FirstLine("\r", t);
    assert "\r" + "\n" + t == CRLF + t && "\r" + "\n" == CRLF;
    NoNull(CRLF);
  }

  lemma DecodeMarker(tail: string)
    ensures Decode(MARKER + tail) == Outcome(true, "", tail)
  {
    hide StrToUl, CString, LineLength, Hex;
    SizeLine(0, CRLF + tail);
    HexIsDigits(0);
    ZeroIs();
    assert Hex(0) + CRLF + (CRLF + tail) == MARKER + tail;
    BlankLine(tail);
  }

  lemma ZeroIs()
    ensures Hex(0) == "0"
  {
  }

  lemma DecodeChunk(d: string, t: string)
    requires 0 < |d| < ULONG_MAX
    ensures Decode(Emit(Write(d)) + t) == Prepend(d, Decode(t))
  {
    hide StrToUl, CString, LineLength, Hex;
    var r := CRLF + t;
    SizeLine(|d|, d + r);
    assert Emit(Write(d)) + t == Hex(|d|) + CRLF + (d + r);
    assert (d + r)[..|d|] == d && (d + r)[|d|..] == r;
    BlankLine(t);
  }

  /** Whatever is written, whatever its pieces and whatever follows in the stream: the reader delivers the
      pieces put together and leaves exactly what follows. */
  lemma {:induction false} ChunkedRoundTrip(ds: seq<string>, tail: string)
    requires forall d :: d in ds ==> |d| < ULONG_MAX
    ensures Decode(Encoded(ds) + tail) == Outcome(true, Concat(ds), tail)
  {
    hide Decode, Emit;
    EncodedStep(ds);
    if |ds| == 0 {
      DecodeMarker(tail);
    } else {
      ChunkedRoundTrip(ds[1..], tail);
      var e := Emit(Write(ds[0]));
      assert e + Encoded(ds[1..]) + tail == e + (Encoded(ds[1..]) + tail);
      if ds[0] == "" {
        EmptyWrite();
        assert e + (Encoded(ds[1..]) + tail) == Encoded(ds[1..]) + tail;
        assert ds[0] + Concat(ds[1..]) == Concat(ds[1..]);
      } else {
        DecodeChunk(ds[0], Encoded(ds[1..]) + tail);
      }
    }
  }

  lemma EmptyWrite()
    ensures Emit(Write("")) == ""
  {
  }

  // ----- transfers cut short -----

  /** How many characters the first j chunks take. */
  function Boundary(ds: seq<string>, j: nat): nat
    requires j <= |ds|
  {
    if j == 0 then 0 else |Emit(Write(ds[0]))| + Boundary(ds[1..], j - 1)
  }

  lemma {:induction false} NoNewline(s: string)
    requires forall k :: 0 <= k < |s| ==> s[k] != '\n'
    ensures Line(s) == s && AfterLine(s) == ""
  {
    if s != "" {
      NoNewline(s[1..]);
    }
  }

  lemma MarkerCutShort(n: nat)
    requires n < |MARKER|
    ensures !Decode(MARKER[..n]).ok
  {
    hide StrToUl, CString, LineLength, Hex;
    if n == 0 {
      assert MARKER[..n] == "";
    } else if n < 3 {
      NoNewline(MARKER[..n]);
    } else {
      SizeLine(0, MARKER[3..n]);
      ZeroIs();
      assert Hex(0) + CRLF + MARKER[3..n] == MARKER[..n];
      if n == 4 {
        assert MARKER[3..n] == "\r";
        NoNewline("\r");
        NoNull("\r");
      } else {
        assert MARKER[3..n] == "";
      }
    }
  }

  /** A transfer that breaks off inside a chunk is refused, unless it breaks off between the two characters
      of the line end behind the data. */
  lemma ChunkCutShort(d: string, n: nat)
    requires 0 < |d| < ULONG_MAX && n < |Emit(Write(d))|
    ensures n == |Emit(Write(d))| - 1 ==> Decode(Emit(Write(d))[..n]) == Outcome(true, d, "")
    ensures n < |Emit(Write(d))| - 1 ==> !Decode(Emit(Write(d))[..n]).ok
  {
    hide StrToUl, CString, LineLength, Hex;
    var e, h := Emit(Write(d)), |Hex(|d|)| + 2;
    HexIsDigits(|d|);
    if n == 0 {
      assert e[..n] == "";
    } else if n < h {
      NoNewline(e[..n]);
    } else {
      var s := e[h..n];
      SizeLine(|d|, s);
      assert Hex(|d|) + CRLF + s == e[..n];
      assert e[h..] == d + CRLF;
      assert s == (d + CRLF)[..n - h];
      if n - h > |d| {
        assert s == d + "\r";
        assert s[..|d|] == d && s[|d|..] == "\r";
        NoNewline("\r");
        NoNull("\r");
      }
    }
  }

  /** A transfer that breaks off anywhere is refused, with one exception for each chunk: cut between the
      carriage return and the newline behind the data it passes for complete, with the chunks so far. */
  lemma {:induction false} CutShort(ds: seq<string>, n: nat)
    requires (forall d :: d in ds ==> 0 < |d| < ULONG_MAX) && n < |Encoded(ds)|
    ensures forall j :: 1 <= j <= |ds| && n == Boundary(ds, j) - 1 ==>
      Decode(Encoded(ds)[..n]) == Outcome(true, Concat(ds[..j]), "")
    ensures (forall j :: 1 <= j <= |ds| ==> n != Boundary(ds, j) - 1) ==> !Decode(Encoded(ds)[..n]).ok
  {
    hide Decode, Emit;
    EncodedStep(ds);
    if |ds| == 0 {
      MarkerCutShort(n);
    } else {
      var e, more := Emit(Write(ds[0])), Encoded(ds[1..]);
      assert Boundary(ds, 1) == |e|;
      if n < |e| {
        ChunkCutShort(ds[0], n);
        assert (e + more)[..n] == e[..n];
        forall j | 1 <= j <= |ds| ensures Boundary(ds, j) >= |e| && (Boundary(ds, j) == |e| ==> j == 1) {
          MoreChunks(ds, j);
        }
        assert ds[..1] == [ds[0]] && [ds[0]][1..] == [] && ds[0] + "" == ds[0];
      } else {
        var m := n - |e|;
        CutShort(ds[1..], m);
        DecodeChunk(ds[0], more[..m]);
        assert (e + more)[..n] == e + more[..m];
        forall j | 1 <= j <= |ds| && n == Boundary(ds, j) - 1
          ensures Decode(Encoded(ds)[..n]) == Outcome(true, Concat(ds[..j]), "")
        {
          assert m == Boundary(ds[1..], j - 1) - 1;
          assert ds[..j][1..] == ds[1..][..j - 1];
        }
        forall j | 1 <= j <= |ds| - 1 ensures Boundary(ds[1..], j) + |e| == Boundary(ds, j + 1) {
        }
      }
    }
  }

  lemma MoreChunks(ds: seq<string>, j: nat)
    requires 1 <= j <= |ds| && forall d :: d in ds ==> |d| > 0
    ensures Boundary(ds, j) >= |Emit(Write(ds[0]))| && (j > 1 ==> Boundary(ds, j) > |Emit(Write(ds[0]))|)
  {
  }

  // ----- transfers by other writers -----

  /** A size line: hexadecimal digits in either case, leading zeros allowed, and an extension or not. */
  datatype Size = Size(digits: string, vs: seq<nat>, ext: string)

  predicate SizeOk(z: Size) {
    && Digits(z.digits, z.vs) && z.digits != "" && (forall k :: 0 <= k < |z.ext| ==> z.ext[k] != '\n')
    && (z.ext != "" ==> NoDigit(z.ext[0]))
    && (z.digits == "0" && |z.ext| >= 2 && (z.ext[0] == 'x' || z.ext[0] == 'X') ==> NoDigit(z.ext[1]))
  }

  function SizeText(z: Size): string { z.digits + z.ext + CRLF }

  lemma {:induction false} CStringFront(s: string, t: string)
    requires forall k :: 0 <= k < |s| ==> s[k] != '\0'
    ensures CString(s + t) == s + CString(t)
  {
    if s == "" {
      assert s + t == t;
    } else {
      assert (s + t)[1..] == s[1..] + t;
      CStringFront(s[1..], t);
    }
  }

  lemma CStringStarts(t: string)
    ensures |CString(t)| <= |t| && forall k :: 0 <= k < |CString(t)| ==> CString(t)[k] == t[k]
  {
  }

  lemma CarriageReturn()
    ensures NoDigit('\r') && NoDigit('\n')
  {
  }

  /** Whatever way the size is written, the reader reads the size. */
  lemma AnySizeLine(z: Size, t: string)
    requires SizeOk(z)
    ensures Line(SizeText(z) + t) == SizeText(z) && AfterLine(SizeText(z) + t) == t
    ensures var v := InBase16(z.vs);
      StrToUl(CString(SizeText(z))) == Number(if v > ULONG_MAX then ULONG_MAX else v)
  {
    hide LineLength, StrToUl, DigitOf, NoDigit, InBase16;
    var h := z.digits + z.ext + "\r";
    AreDigits(z.digits, z.vs);
    DigitsAreText(z.digits);
    assert SizeText(z) + t == h + "\n" + t && SizeText(z) == h + "\n";
    FirstLine(h, t);
    var e := z.ext + CRLF;
    assert SizeText(z) == z.digits + e;
    CStringFront(z.digits, e);
    CStringStarts(e);
    CarriageReturn();
    StrToUlIs("", "", "", z.digits, z.vs, CString(e));
    assert "" + ("" + ("" + (z.digits + CString(e)))) == z.digits + CString(e);
  }

  lemma DigitsAreText(s: string)
    requires forall k :: 0 <= k < |s| ==> IsHex(s[k])
    ensures forall k :: 0 <= k < |s| ==> s[k] != '\n' && s[k] != '\0'
  {
  }

  /** A chunk with any such size line is the data followed by what comes behind it. */
  lemma DecodeAnyChunk(z: Size, d: string, t: string)
    requires SizeOk(z) && InBase16(z.vs) == |d| && 0 < |d| < ULONG_MAX
    ensures Decode(SizeText(z) + (d + CRLF + t)) == Prepend(d, Decode(t))
  {
    hide StrToUl, CString, LineLength, SizeText, SizeOk, InBase16;
    var r := CRLF + t;
    AnySizeLine(z, d + CRLF + t);
    SizeNotEmpty(z);
    assert d + CRLF + t == d + r;
    assert (d + r)[..|d|] == d && (d + r)[|d|..] == r;
    BlankLine(t);
  }

  lemma SizeNotEmpty(z: Size)
    ensures SizeText(z) != ""
  {
  }

  /** A size of zero ends the content; the transfer is complete exactly if an empty line follows. */
  lemma DecodeAnyLast(z: Size, t: string)
    requires SizeOk(z) && InBase16(z.vs) == 0
    ensures Decode(SizeText(z) + (CRLF + t)) == Outcome(true, "", t)
    ensures t != "" && CString(Line(t)) != "\r\n" ==> Decode(SizeText(z) + t) == Outcome(false, "", AfterLine(t))
    ensures Decode(SizeText(z)) == Outcome(false, "", "")
  {
    hide StrToUl, CString, LineLength, SizeText, SizeOk, InBase16;
    SizeNotEmpty(z);
    AnySizeLine(z, CRLF + t);
    AnySizeLine(z, t);
    AnySizeLine(z, "");
    assert SizeText(z) + "" == SizeText(z);
    BlankLine(t);
  }

  /** A size that does not fit, and fewer characters than the size says, are refused. */
  lemma TooLargeOrTooShort(z: Size, t: string)
    requires SizeOk(z) && (InBase16(z.vs) >= 0xFFFF_FFFF_FFFF_FFFF || |t| <= InBase16(z.vs)) && InBase16(z.vs) > 0
    ensures !Decode(SizeText(z) + t).ok
    ensures Decode(SizeText(z) + t).body == if InBase16(z.vs) >= 0xFFFF_FFFF_FFFF_FFFF then "" else t
  {
    hide StrToUl, CString, LineLength, SizeText, SizeOk, InBase16;
    SizeNotEmpty(z);
    AnySizeLine(z, t);
  }

  /** A line that begins with no digit is no size. */
  lemma NoSize(line: string, t: string)
    requires (forall k :: 0 <= k < |line| ==> line[k] != '\n')
    requires line == "" || (NoDigit(line[0]) && !White(line[0]) && line[0] != '+' && line[0] != '-')
    ensures Decode(line + "\n" + t) == Outcome(false, "", t)
  {
    hide StrToUl, LineLength, NoDigit, White;
    FirstLine(line, t);
    var e := line + "\n";
    CStringStarts(e);
    if line == "" {
      assert e == "\n";
      NewlineOnly();
      NoNumber("\n", "", "");
    } else {
      assert e[0] == line[0];
      NoNumber("", "", CString(e));
      assert "" + ("" + CString(e)) == CString(e);
    }
  }

  lemma NewlineOnly()
    ensures CString("\n") == "\n" && White('\n') && "\n" + ("" + "") == "\n"
  {
    NoNull("\n");
  }

  /** Data that is not followed by an empty line ends the transfer, and it passes for complete: that line is dropped. */
  lemma NoLineEnd(z: Size, d: string, t: string)
    requires SizeOk(z) && InBase16(z.vs) == |d| && 0 < |d| < ULONG_MAX && t != "" && CString(Line(t)) != "\r\n"
    ensures Decode(SizeText(z) + (d + t)) == Outcome(true, d, AfterLine(t))
  {
    hide StrToUl, CString, LineLength, SizeText, SizeOk, InBase16;
    AnySizeLine(z, d + t);
    SizeNotEmpty(z);
    assert (d + t)[..|d|] == d && (d + t)[|d|..] == t;
  }

  datatype Piece = Piece(size: Size, data: string)

  predicate PieceOk(p: Piece) { SizeOk(p.size) && InBase16(p.size.vs) == |p.data| && 0 < |p.data| < ULONG_MAX }

  /** A transfer: chunks, and a last size of zero. */
  function Transfer(ps: seq<Piece>, last: Size): string {
    if |ps| == 0 then SizeText(last) + CRLF
    else SizeText(ps[0].size) + (ps[0].data + CRLF + Transfer(ps[1..], last))
  }

  function AllData(ps: seq<Piece>): string {
    if |ps| == 0 then "" else ps[0].data + AllData(ps[1..])
  }

  /** Whoever wrote it, the reader delivers the data put together and leaves exactly what follows. */
  lemma {:induction false} AnyTransfer(ps: seq<Piece>, last: Size, tail: string)
    requires (forall i :: 0 <= i < |ps| ==> PieceOk(ps[i])) && SizeOk(last) && InBase16(last.vs) == 0
    ensures Decode(Transfer(ps, last) + tail) == Outcome(true, AllData(ps), tail)
  {
    hide Decode, SizeText, SizeOk, InBase16;
    if |ps| == 0 {
      DecodeAnyLast(last, tail);
      assert SizeText(last) + CRLF + tail == SizeText(last) + (CRLF + tail);
    } else {
      var p, more := ps[0], Transfer(ps[1..], last);
      assert PieceOk(p);
      AnyTransfer(ps[1..], last, tail);
      DecodeAnyChunk(p.size, p.data, more + tail);
      assert Transfer(ps, last) + tail == SizeText(p.size) + (p.data + CRLF + (more + tail));
    }
  }

  // ----- when a provider is asked for more -----

  /** It is asked until it says it is done or writes nothing. */
  lemma AskedUntilDone(events: seq<Event>, d: string)
    ensures Available([]) && !Available(events + [Done]) && (Available(events + [Write(d)]) <==> d != "")
  {
  }
}
