/** multipart/form-data (section 5.1.1 of RFC 2046, section 4 of RFC 7578): the builder of a client's
    request body and the server's incremental parser. */
module Multipart {
  import opened Texts

  datatype Item = Item(name: string, content: string, filename: string, contentType: string)

  const NOTHING := Item("", "", "", "")

  // ----- the Content-Disposition line -----

  predicate IsSpace(c: char) { c == ' ' || 9 <= c as int <= 13 }

  function SkipSpace(s: string): string {
    if |s| > 0 && IsSpace(s[0]) then SkipSpace(s[1..]) else s
  }

  predicate AllSpace(s: string) { SkipSpace(s) == "" }

  datatype Match = NoMatch | Match(name: string, filename: string)

  /** `"(.*?)"` where what follows the closing quote must be accepted by `Rest`: the shortest text that works.
      A dot matches no line break. */
  function LazyFile(s: string, i: nat): Match
    requires i <= |s|
    decreases |s| - i
  {
    if i == |s| then NoMatch
    else if s[i] == '"' && AllSpace(s[i + 1..]) then Match("", s[..i])
    else if s[i] in "\r\n" then NoMatch
    else LazyFile(s, i + 1)
  }

  const FILENAME := "filename=\""

  /** `(?:;\s*filename="(.*?)")?\s*$` */
  function Tail(s: string): Match {
    var t := if |s| > 0 && s[0] == ';' then SkipSpace(s[1..]) else "";
    var m := if StartsWith(t, FILENAME) then LazyFile(t[|FILENAME|..], 0) else NoMatch;
    if m.Match? then m else if AllSpace(s) then Match("", "") else NoMatch
  }

  function LazyName(s: string, i: nat): Match
    requires i <= |s|
    decreases |s| - i
  {
    if i == |s| then NoMatch
    else if s[i] == '"' && Tail(s[i + 1..]).Match? then Match(s[..i], Tail(s[i + 1..]).filename)
    else if s[i] in "\r\n" then NoMatch
    else LazyName(s, i + 1)
  }

  const DISPOSITION := "Content-Disposition:"
  const FORM_DATA := "form-data;"
  const NAME := "name=\""

  /** The regular expression for a Content-Disposition line of a form field. */
  function Disposition(s: string): Match {
    if !StartsWith(s, DISPOSITION) then NoMatch
    else
      var a := SkipSpace(s[|DISPOSITION|..]);
      if !StartsWith(a, FORM_DATA) then NoMatch
      else
        var b := SkipSpace(a[|FORM_DATA|..]);
        if !StartsWith(b, NAME) then NoMatch else LazyName(b[|NAME|..], 0)
  }

  const CONTENT_TYPE := "content-type:"

  /** What one header line does to the file information. */
  function TakeHeader(file: Item, header: string): Item {
    if StartsWith(header, CONTENT_TYPE) then file.(contentType := Trim(header[|CONTENT_TYPE|..]))
    else
      match Disposition(header)
      case NoMatch => file
      case Match(name, filename) => file.(name := name, filename := filename)
  }

  // ----- the parser on values -----

  /** The parser's fields, and the items its receiver holds. */
  datatype State = State(boundary: string, buf: string, state: nat, valid: bool, off: nat, file: Item, items: seq<Item>)
  {
    /** Drop n characters of the buffer. */
    function Eat(n: nat): State
      requires n <= |buf|
    {
      this.(buf := buf[n..], off := off + n)
    }

    /** Hand n characters of the buffer to the receiver and drop them. */
    function Pass(n: nat): State
      requires n <= |buf|
    {
      Eat(n).(items := Extend(items, buf[..n]))
    }

    function Opening(): string { "--" + boundary + CRLF }

    function Delimiter(): string { CRLF + "--" + boundary }
  }

  /** More content for the last item. */
  function Extend(items: seq<Item>, d: string): seq<Item> {
    if |items| == 0 then items
    else
      var last := items[|items| - 1];
      items[|items| - 1 := last.(content := last.content + d)]
  }

  /** After a case of the switch: leave `parse` with an answer, or go round again. */
  datatype Next = Stop(s: State, ret: bool) | Again(s: State)

  function Start(s: State): Next {
    var pattern := s.Opening();
    if |pattern| > |s.buf| then Stop(s, true)
    else if Find(s.buf, pattern) != 0 then Stop(s, false)
    else Again(s.Eat(|pattern|).(state := 1))
  }

  /** Header lines up to and including the empty one, or as many as are there. */
  function Headers(s: State): (r: State)
    ensures |r.buf| <= |s.buf| && (r.state == 3 && s.state != 3 ==> |r.buf| < |s.buf|)
    decreases |s.buf|
  {
    var pos := Find(s.buf, CRLF);
    if pos < 0 then s
    else if pos == 0 then s.Eat(2).(state := 3, items := s.items + [s.file])
    else Headers(s.Eat(pos + 2).(file := TakeHeader(s.file, s.buf[..pos])))
  }

  /** How much of the buffer cannot be the beginning of a delimiter. */
  function Safe(buf: string, pos: nat): (r: nat)
    requires pos <= |buf|
    ensures r <= pos
  {
    if pos > 0 && buf[pos - 1] in "\r\n-" then Safe(buf, pos - 1) else pos
  }

  function Body(s: State): Next {
    if |s.buf| < 4 then Stop(s, true) else ToDelimiter(ToDashes(s))
  }

  /** Deliver what comes before the first line break with dashes, or what is surely before one. */
  function ToDashes(s: State): State {
    var pos := Find(s.buf, CRLF + "--");
    s.Pass(if pos < 0 then Safe(s.buf, |s.buf|) else pos)
  }

  /** Deliver what comes before the delimiter and drop it, or deliver as much as it is long. */
  function ToDelimiter(s: State): Next {
    var pattern := s.Delimiter();
    if |pattern| > |s.buf| then Stop(s, true)
    else
      var pos := Find(s.buf, pattern);
      Again(if pos < 0 then s.Pass(|pattern|) else s.Pass(pos).Eat(|pattern|).(state := 4))
  }

  function AfterDelimiter(s: State): Next {
    if |s.buf| < 2 then Stop(s, true)
    else if s.buf[..2] == CRLF then Again(s.Eat(2).(state := 1))
    else if |s.buf| < 4 then Stop(s, true)
    else if s.buf[..4] == "--" + CRLF then Again(s.Eat(4).(valid := true, state := 5))
    else Stop(s, true)
  }

  function Switch(s: State): Next {
    match s.state
    case 0 => Start(s)
    case 1 => Again(s.(file := NOTHING, state := 2))
    case 2 => var t := Headers(s); if t.state != 3 then Stop(t, true) else Again(t)
    case 3 => Body(s)
    case 4 => AfterDelimiter(s)
    case _ => Stop(s.(valid := false), false)
  }

  function Rank(s: State): nat { 2 * |s.buf| + if s.state == 1 then 1 else 0 }

  lemma SwitchShrinks(s: State)
    requires s.buf != "" && Switch(s).Again?
    ensures Rank(Switch(s).s) < Rank(s)
  {
    hide Find, TakeHeader, Safe, Extend;
    if s.state == 0 {
      assert |s.Opening()| >= 4;
    }
  }

  /** `parse`, once the new data is in the buffer. */
  function Parse(s: State): (State, bool)
    decreases Rank(s)
  {
    hide Switch, Rank;
    if s.buf == "" then (s, true)
    else
      match Switch(s)
      case Stop(t, ret) => (t, ret)
      case Again(t) => SwitchShrinks(s); Parse(t)
  }

  // ----- the parser itself -----

  /** Where fields go; a receiver that is not willing may refuse. */
  class FormReceiver {
    var items: seq<Item>
    const willing: bool

    constructor (willing: bool)
      ensures items == [] && this.willing == willing
    {
      items := [];
      this.willing := willing;
    }

    method Header(file: Item) returns (ok: bool)
      modifies this
      ensures items == old(items) + [file] && (!ok ==> !willing)
    {
      items := items + [file];
      var refuse :| refuse ==> !willing;
      ok := !refuse;
    }

    method Content(d: string) returns (ok: bool)
      modifies this
      ensures items == Extend(old(items), d) && (!ok ==> !willing)
    {
      items := Extend(items, d);
      var refuse :| refuse ==> !willing;
      ok := !refuse;
    }
  }

  class MultipartFormDataParser {
    var boundary: string
    var buf: string
    var state: nat
    var isValid: bool
    var off: nat
    var file: Item

    constructor (boundary: string)
      ensures this.boundary == boundary && buf == "" && state == 0 && !isValid && off == 0 && file == NOTHING
    {
      this.boundary := boundary;
      buf, state, isValid, off, file := "", 0, false, 0, NOTHING;
    }

    /** The fields, together with what the receiver holds. */
    function Abs(items: seq<Item>): State
      reads this
    {
      State(boundary, buf, state, isValid, off, file, items)
    }

    method Erase(n: nat)
      requires n <= |buf|
      modifies `buf, `off
      ensures buf == old(buf)[n..] && off == old(off) + n
    {
      buf := buf[n..];
      off := off + n;
    }

    /** Case 2: header lines. */
    method ReadHeaders(receiver: FormReceiver) returns (ok: bool)
      requires state != 3
      modifies this, receiver
      ensures ok ==> Abs(receiver.items) == Headers(old(Abs(receiver.items)))
      ensures !ok ==> !receiver.willing && !isValid
    {
      hide Find, TakeHeader, Disposition, Trim, StartsWith;
      ghost var s := Abs(receiver.items);
      var pos := Find(buf, CRLF);
      while pos != -1
        invariant pos == Find(buf, CRLF) && state != 3 && Headers(s) == Headers(Abs(receiver.items))
        decreases |buf|
      {
        if pos == 0 {
          ok := receiver.Header(file);
          if !ok {
            isValid := false;
            return;
          }
          Erase(2);
          state := 3;
          return;
        }
        TakeLine(buf[..pos]);
        Erase(pos + 2);
        pos := Find(buf, CRLF);
      }
      ok := true;
    }

    method TakeLine(header: string)
      modifies `file
      ensures file == TakeHeader(old(file), header)
    {
      hide Disposition, Trim, StartsWith;
      if StartsWith(header, CONTENT_TYPE) {
        ContentTypeLine(file, header);
        var contentType := TrimCopy(header[|CONTENT_TYPE|..]);
        file := file.(contentType := contentType);
      } else {
        var m := Disposition(header);
        if m.Match? {
          file := file.(name := m.name, filename := m.filename);
        }
      }
    }

    lemma ContentTypeLine(file: Item, header: string)
      requires StartsWith(header, CONTENT_TYPE)
      ensures |header| >= |CONTENT_TYPE|
      ensures TakeHeader(file, header) == file.(contentType := Trim(header[|CONTENT_TYPE|..]))
    {
    }

    /** Case 3: content, up to the delimiter if it is there. */
    method ReadBody(receiver: FormReceiver) returns (ret: bool, go: bool)
      requires state == 3
      modifies this, receiver
      ensures ret && go ==> Body(old(Abs(receiver.items))) == Again(Abs(receiver.items))
      ensures ret && !go ==> Body(old(Abs(receiver.items))) == Stop(Abs(receiver.items), true)
      ensures !ret ==> !go && !receiver.willing && !isValid
    {
      hide Find, Extend, ToDelimiter;
      if |buf| < 4 { return true, false; }
      var pos := Find(buf, CRLF + "--");
      if pos == -1 {
        pos := SafeLength();
      }
      var ok := Deliver(receiver, pos);
      if !ok { return false, false; }
      ret, go := ReadToDelimiter(receiver);
    }

    method ReadToDelimiter(receiver: FormReceiver) returns (ret: bool, go: bool)
      modifies this, receiver
      ensures ret && go ==> ToDelimiter(old(Abs(receiver.items))) == Again(Abs(receiver.items))
      ensures ret && !go ==> ToDelimiter(old(Abs(receiver.items))) == Stop(Abs(receiver.items), true)
      ensures !ret ==> !go && !receiver.willing && !isValid
    {
      hide Find, Extend;
      var pattern := CRLF + "--" + boundary;
      if |pattern| > |buf| { return true, false; }
      var p := Find(buf, pattern);
      var ok := Deliver(receiver, if p == -1 then |pattern| else p);
      if !ok { return false, false; }
      if p != -1 {
        Erase(|pattern|);
        state := 4;
      }
      return true, true;
    }

    method SafeLength() returns (pos: nat)
      ensures pos == Safe(buf, |buf|)
    {
      pos := |buf|;
      while pos > 0 && buf[pos - 1] in "\r\n-"
        invariant 0 <= pos <= |buf| && Safe(buf, |buf|) == Safe(buf, pos)
      {
        pos := pos - 1;
      }
    }

    /** Hand over the first n characters; a refusal makes the form invalid. */
    method Deliver(receiver: FormReceiver, n: nat) returns (ok: bool)
      requires n <= |buf|
      modifies `isValid, `buf, `off, receiver
      ensures ok ==> Abs(receiver.items) == old(Abs(receiver.items)).Pass(n)
      ensures !ok ==> !receiver.willing && !isValid
    {
      ok := receiver.Content(buf[..n]);
      if !ok {
        isValid := false;
        return;
      }
      Erase(n);
    }

    /** `parse`: whatever it answers true to, and whatever it does with a willing receiver, is as Parse says. */
    method ParseMore(data: string, receiver: FormReceiver) returns (ret: bool)
      modifies this, receiver
      ensures var s := old(Abs(receiver.items));
        ret || receiver.willing ==> Parse(s.(buf := s.buf + data)) == (Abs(receiver.items), ret)
      ensures !ret ==> !isValid || state == 0
    {
      hide Find, Headers, Body;
      buf := buf + data;
      ghost var s := Abs(receiver.items);
      while buf != ""
        invariant Parse(s) == Parse(Abs(receiver.items))
        decreases Rank(Abs(receiver.items))
      {
        ghost var before := Abs(receiver.items);
        ParseStep(before);
        match state {
          case 0 =>
            var pattern := "--" + boundary + CRLF;
            if |pattern| > |buf| { return true; }
            var pos := Find(buf, pattern);
            if pos != 0 { return false; }
            Erase(|pattern|);
            state := 1;
          case 1 =>
            file := NOTHING;
            state := 2;
          case 2 =>
            var ok := ReadHeaders(receiver);
            if !ok { return false; }
            if state != 3 { return true; }
          case 3 =>
            var ok, go := ReadBody(receiver);
            if !ok { return false; }
            if !go { return true; }
          case 4 =>
            if |buf| < 2 { return true; }
            if buf[..2] == CRLF {
              Erase(2);
              state := 1;
            } else {
              if |buf| < 4 { return true; }
              if buf[..4] == "--" + CRLF {
                Erase(4);
                isValid := true;
                state := 5;
              } else {
                return true;
              }
            }
          case _ =>
            isValid := false;
            return false;
        }
      }
      return true;
    }
  }

  lemma ParseStep(s: State)
    requires s.buf != ""
    ensures Switch(s).Stop? ==> Parse(s) == (Switch(s).s, Switch(s).ret)
    ensures Switch(s).Again? ==> Parse(s) == Parse(Switch(s).s) && Rank(Switch(s).s) < Rank(s)
  {
    hide Switch, Rank;
    if Switch(s).Again? {
      SwitchShrinks(s);
    }
  }
}
