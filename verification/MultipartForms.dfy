/** What the builder writes, the parser reads. */
module MultipartForms {
  import opened Texts
  import opened Multipart
  import opened HeaderLines

  // ----- the builder -----

  predicate BoundaryChar(c: char) {
    '0' <= c <= '9' || 'A' <= c <= 'Z' || 'a' <= c <= 'z' || c == '-' || c == '_'
  }

  /** The codes of the ASCII digits, of the ASCII letters of both cases, of `-` and of `_`. */
  predicate AlphaNumericDashUnderscore(code: int) {
    48 <= code < 48 + 10 || 65 <= code < 65 + 26 || 97 <= code < 97 + 26 || code == 45 || code == 95
  }

  const DISPOSITION_START := "Content-Disposition: form-data; name=\""
  const FILENAME_START := "; filename=\""
  const TYPE_START := "Content-Type: "

  function DispositionLine(item: Item): string {
    DISPOSITION_START + item.name + "\"" + if item.filename != "" then FILENAME_START + item.filename + "\"" else ""
  }

  function Head(item: Item): string {
    DispositionLine(item) + CRLF + (if item.contentType != "" then TYPE_START + item.contentType + CRLF else "") + CRLF
  }

  function Part(item: Item, boundary: string): string {
    "--" + boundary + CRLF + Head(item) + item.content + CRLF
  }

  function Parts(items: seq<Item>, boundary: string): string {
    if |items| == 0 then "" else Parts(items[..|items| - 1], boundary) + Part(items[|items| - 1], boundary)
  }

  function Form(items: seq<Item>, boundary: string): string {
    Parts(items, boundary) + ("--" + boundary + "--" + CRLF)
  }

  datatype Posted = BadBoundary | Posted(body: string)

  /** The client's `Post` of a form, up to sending it. */
  method Post(items: seq<Item>, boundary: string) returns (r: Posted)
    ensures r == if forall i :: 0 <= i < |boundary| ==> BoundaryChar(boundary[i])
                 then Posted(Form(items, boundary)) else BadBoundary
    ensures r == BadBoundary <==> exists i :: 0 <= i < |boundary| && !AlphaNumericDashUnderscore(boundary[i] as int)
  {
    hide Head, DispositionLine;
    for i := 0 to |boundary|
      invariant forall k :: 0 <= k < i ==> BoundaryChar(boundary[k])
    {
      if !BoundaryChar(boundary[i]) {
        return BadBoundary;
      }
    }
    var body := "";
    for i := 0 to |items|
      invariant body == Parts(items[..i], boundary)
    {
      var item := items[i];
      var part := "--" + boundary + CRLF;
      var line := DISPOSITION_START + item.name + "\"";
      if item.filename != "" {
        line := line + FILENAME_START + item.filename + "\"";
      }
      var head := line + CRLF;
      if item.contentType != "" {
        head := head + TYPE_START + item.contentType + CRLF;
      }
      head := head + CRLF;
      HeadIs(item, line, head);
      body := body + (part + head + item.content + CRLF);
      assert items[..i + 1][..i] == items[..i];
    }
    assert items[..|items|] == items;
    r := Posted(body + ("--" + boundary + "--" + CRLF));
  }

  lemma HeadIs(item: Item, line: string, head: string)
    requires line ==
      DISPOSITION_START + item.name + "\"" + if item.filename != "" then FILENAME_START + item.filename + "\"" else ""
    requires head == line + CRLF + (if item.contentType != "" then TYPE_START + item.contentType + CRLF else "") + CRLF
    ensures head == Head(item)
  {
  }

  // ----- what can be sent -----

  predicate PlainName(s: string) {
    forall i :: 0 <= i < |s| ==> s[i] !in "\"\r\n"
  }

  /** Names in quotes, a type on one line, and content without the delimiter. */
  predicate Sendable(item: Item, boundary: string) {
    && PlainName(item.name) && PlainName(item.filename)
    && Find(item.contentType, CRLF) < 0
    && Find(item.content, CRLF + "--" + boundary) < 0
  }

  /** What arrives: the item, its content type without blanks at the ends. */
  function Arrived(item: Item): Item { item.(contentType := Trim(item.contentType)) }

  function FileInfo(item: Item): Item { Arrived(item).(content := "") }

  /** A part as it is sent, by whomever: any header lines, and content. */
  datatype Sent = Sent(lines: seq<string>, content: string)

  predicate Carried(p: Sent, boundary: string) {
    && (forall i :: 0 <= i < |p.lines| ==> p.lines[i] != "" && Find(p.lines[i], CRLF) < 0)
    && Find(p.content, CRLF + "--" + boundary) < 0
  }

  /** What the header lines do, one after the other. */
  function TakeAll(file: Item, lines: seq<string>): Item
    decreases |lines|
  {
    if |lines| == 0 then file else TakeAll(TakeHeader(file, lines[0]), lines[1..])
  }

  function HeadOf(lines: seq<string>): string {
    if |lines| == 0 then CRLF else lines[0] + CRLF + HeadOf(lines[1..])
  }

  function Info(p: Sent): Item { TakeAll(NOTHING, p.lines) }

  function Received(p: Sent): Item { Info(p).(content := Info(p).content + p.content) }

  /** The header lines the builder writes for an item. */
  function LinesOf(item: Item): seq<string> {
    [DispositionLine(item)] + if item.contentType != "" then [TYPE_START + item.contentType] else []
  }

  function AsSent(item: Item): Sent { Sent(LinesOf(item), item.content) }

  // ----- one header line -----

  lemma {:induction false} LazyFileIs(s: string, i: nat)
    requires i <= |s| && PlainName(s)
    ensures LazyFile(s + "\"", i) == Match("", s)
    decreases |s| - i
  {
    var u := s + "\"";
    if i == |s| {
      assert u[i + 1..] == "" && u[..i] == s;
    } else {
      LazyFileIs(s, i + 1);
    }
  }

  lemma {:induction false} LazyNameIs(s: string, t: string, i: nat)
    requires i <= |s| && PlainName(s) && Tail(t).Match?
    ensures LazyName(s + "\"" + t, i) == Match(s, Tail(t).filename)
    decreases |s| - i
  {
    hide Tail;
    var u := s + "\"" + t;
    if i == |s| {
      assert u[i + 1..] == t && u[..i] == s;
    } else {
      LazyNameIs(s, t, i + 1);
    }
  }

  lemma SamePrefix(p: string, s: string, t: string)
    requires s == p + t
    ensures StartsWith(s, p) && s[|p|..] == t
  {
  }

  lemma TailIs(filename: string)
    requires PlainName(filename)
    ensures Tail(if filename != "" then FILENAME_START + filename + "\"" else "") == Match("", filename)
  {
    hide LazyFile, StartsWith;
    if filename != "" {
      var q := filename + "\"";
      var u := FILENAME + q;
      var s := FILENAME_START + filename + "\"";
      assert s[1..] == " " + u;
      assert SkipSpace(s[1..]) == u by {
        assert (" " + u)[1..] == u;
        assert u[0] == 'f';
      }
      SamePrefix(FILENAME, u, q);
      LazyFileIs(filename, 0);
    } else {
      NotEmpty();
    }
  }

  lemma NotEmpty()
    ensures !StartsWith("", FILENAME)
  {
  }

  lemma Unfolded(s: string, a: string, b: string, d: string)
    requires StartsWith(s, DISPOSITION) && SkipSpace(s[|DISPOSITION|..]) == a
    requires StartsWith(a, FORM_DATA) && SkipSpace(a[|FORM_DATA|..]) == b
    requires StartsWith(b, NAME) && b[|NAME|..] == d
    ensures Disposition(s) == LazyName(d, 0)
  {
    hide StartsWith, SkipSpace, LazyName;
  }

  lemma LineSplits(item: Item)
    ensures var tail := if item.filename != "" then FILENAME_START + item.filename + "\"" else "";
      DispositionLine(item) == DISPOSITION + (" " + (FORM_DATA + (" " + (NAME + (item.name + "\"" + tail)))))
  {
  }

  lemma NoSpaceFirst(d: string)
    ensures !IsSpace((FORM_DATA + (" " + (NAME + d)))[0]) && !IsSpace((NAME + d)[0])
  {
  }

  lemma DispositionIs(item: Item)
    requires PlainName(item.name) && PlainName(item.filename)
    ensures Disposition(DispositionLine(item)) == Match(item.name, item.filename)
  {
    hide LazyName, Tail, StartsWith, Disposition, SkipSpace, PlainName, DispositionLine, IsSpace;
    var tail := if item.filename != "" then FILENAME_START + item.filename + "\"" else "";
    var d := item.name + "\"" + tail;
    var s := DispositionLine(item);
    var b := NAME + d;
    var a := FORM_DATA + (" " + b);
    LineSplits(item);
    NoSpaceFirst(d);
    SamePrefix(DISPOSITION, s, " " + a);
    OneSpace(a);
    SamePrefix(FORM_DATA, a, " " + b);
    OneSpace(b);
    SamePrefix(NAME, b, d);
    Unfolded(s, a, b, d);
    TailIs(item.filename);
    LazyNameIs(item.name, tail, 0);
  }

  lemma OneSpace(s: string)
    requires |s| > 0 && !IsSpace(s[0])
    ensures SkipSpace(" " + s) == s
  {
    assert (" " + s)[1..] == s;
  }

  lemma DispositionTaken(file: Item, item: Item)
    requires PlainName(item.name) && PlainName(item.filename)
    ensures TakeHeader(file, DispositionLine(item)) == file.(name := item.name, filename := item.filename)
  {
    hide Disposition;
    DispositionIs(item);
    var s := DispositionLine(item);
    assert s[8] == 'D' && CONTENT_TYPE[8] == 't';
  }

  lemma TypeTaken(file: Item, contentType: string)
    ensures TakeHeader(file, TYPE_START + contentType) == file.(contentType := Trim(contentType))
  {
    hide Disposition, Trim;
    var s, t := TYPE_START + contentType, " " + contentType;
    assert s == TYPE_START[..13] + t;
    OtherCase(TYPE_START[..13], s, t, CONTENT_TYPE);
    TrimSpace(contentType);
  }

  lemma OtherCase(p: string, s: string, t: string, q: string)
    requires s == p + t && |p| == |q| && forall i :: 0 <= i < |q| ==> Lower(p[i]) == Lower(q[i])
    ensures StartsWith(s, q) && s[|q|..] == t
  {
    hide Lower;
  }

  lemma TrimSpace(s: string)
    ensures Trim(" " + s) == Trim(s)
  {
    assert (" " + s)[1..] == s;
  }

  // ----- one part -----

  lemma NoReturn(s: string)
    requires forall i :: 0 <= i < |s| ==> s[i] != '\r'
    ensures Find(s, CRLF) < 0
  {
    FindFirst(s, CRLF);
    forall j: nat | true ensures !Occurs(s, CRLF, j) {
      assert j + 2 <= |s| ==> s[j..j + 2][0] == s[j];
    }
  }

  lemma DispositionOnOneLine(item: Item)
    requires PlainName(item.name) && PlainName(item.filename)
    ensures Find(DispositionLine(item), CRLF) < 0 && DispositionLine(item) != ""
  {
    assert forall i :: 0 <= i < |DISPOSITION_START| ==> DISPOSITION_START[i] != '\r';
    assert forall i :: 0 <= i < |FILENAME_START| ==> FILENAME_START[i] != '\r';
    NoReturn(DispositionLine(item));
  }

  lemma TypeOnOneLine(contentType: string)
    requires Find(contentType, CRLF) < 0
    ensures Find(TYPE_START + contentType, CRLF) < 0 && TYPE_START + contentType != ""
  {
    var s, n := TYPE_START + contentType, |TYPE_START|;
    FindFirst(contentType, CRLF);
    FindFirst(s, CRLF);
    var k := Find(s, CRLF);
    assert forall i :: 0 <= i < |TYPE_START| ==> TYPE_START[i] != '\r';
    assert k >= 0 ==> s[k..k + 2][0] == s[k];
    assert s[n..] == contentType;
    if k >= n {
      OccursDrop(s, CRLF, n, k - n);
    }
  }

  lemma EatTwice(s: State, a: nat, b: nat)
    requires a + b <= |s.buf|
    ensures s.Eat(a).Eat(b) == s.Eat(a + b)
  {
    assert s.buf[a..][b..] == s.buf[a + b..];
  }

  /** One header line. */
  lemma LineTaken(s: State, line: string, t: string)
    requires s.buf == line + CRLF + t && Find(line, CRLF) < 0 && line != ""
    ensures Headers(s) == Headers(s.Eat(|line| + 2).(file := TakeHeader(s.file, line))) && s.Eat(|line| + 2).buf == t
  {
    hide Find, TakeHeader;
    FindBehind(line, CRLF, t);
    assert s.buf[..|line|] == line && s.buf[|line| + 2..] == t;
  }

  lemma LastLine(s: State, t: string)
    requires s.buf == CRLF + t
    ensures Headers(s) == s.Eat(2).(state := 3, items := s.items + [s.file]) && s.Eat(2).buf == t
  {
    assert s.buf[..2] == CRLF;
  }

  /** All header lines, with the empty one. */
  lemma {:induction false} HeadRead(s: State, lines: seq<string>, t: string)
    requires s.buf == HeadOf(lines) + t
    requires forall i :: 0 <= i < |lines| ==> lines[i] != "" && Find(lines[i], CRLF) < 0
    ensures var file := TakeAll(s.file, lines);
      Headers(s) == s.Eat(|HeadOf(lines)|).(state := 3, file := file, items := s.items + [file])
    ensures s.Eat(|HeadOf(lines)|).buf == t
    decreases |lines|
  {
    hide Headers, TakeHeader, Find;
    if |lines| == 0 {
      LastLine(s, t);
    } else {
      var line, more := lines[0], HeadOf(lines[1..]) + t;
      assert s.buf == line + CRLF + more;
      LineTaken(s, line, more);
      HeadRead(s.Eat(|line| + 2).(file := TakeHeader(s.file, line)), lines[1..], t);
      EatTwice(s, |line| + 2, |HeadOf(lines[1..])|);
    }
  }

  lemma ExtendTwice(items: seq<Item>, a: string, b: string)
    ensures Extend(Extend(items, a), b) == Extend(items, a + b)
  {
    if |items| > 0 {
      var last := items[|items| - 1];
      assert last.content + (a + b) == (last.content + a) + b;
    }
  }

  lemma PassTwice(s: State, a: nat, b: nat)
    requires a + b <= |s.buf|
    ensures s.Pass(a).Pass(b) == s.Pass(a + b)
  {
    hide Extend;
    ExtendTwice(s.items, s.buf[..a], s.buf[a..][..b]);
    EatTwice(s, a, b);
    assert s.buf[..a] + s.buf[a..][..b] == s.buf[..a + b];
  }

  predicate GoodBoundary(b: string) { forall i :: 0 <= i < |b| ==> BoundaryChar(b[i]) }

  /** The delimiter has a carriage return at its first position only, so it cannot begin inside the content. */
  lemma DelimiterFound(s: State, content: string, t: string)
    requires s.buf == content + s.Delimiter() + t && GoodBoundary(s.boundary) && Find(content, s.Delimiter()) < 0
    ensures Find(s.buf, s.Delimiter()) == |content|
  {
    hide Find;
    OneReturn(s.boundary);
    FindBehind(content, s.Delimiter(), t);
  }

  lemma OneReturn(b: string)
    requires GoodBoundary(b)
    ensures var d := CRLF + "--" + b; forall m :: 1 <= m < |d| ==> d[m] != d[0]
  {
    hide BoundaryChar;
    var d := CRLF + "--" + b;
    forall m | 1 <= m < |d| ensures d[m] != d[0] {
      if m >= 4 {
        assert d[m] == b[m - 4];
        BoundaryPrints(b[m - 4]);
      }
    }
  }

  lemma BoundaryPrints(c: char)
    requires BoundaryChar(c)
    ensures c != '\r'
  {
  }

  /** The content of an item, with line breaks and dashes of its own, and the delimiter behind it. */
  lemma ContentRead(s: State, content: string, t: string)
    requires s.buf == content + s.Delimiter() + t && GoodBoundary(s.boundary) && Find(content, s.Delimiter()) < 0
    ensures Body(s) == Again(s.Pass(|content|).Eat(|s.Delimiter()|).(state := 4))
    ensures s.Pass(|content|).Eat(|s.Delimiter()|).buf == t
  {
    hide Find, Extend;
    var d := s.Delimiter();
    DelimiterFound(s, content, t);
    assert d == CRLF + "--" + s.boundary;
    FindPrefix(s.buf, CRLF + "--", s.boundary);
    var pos := Find(s.buf, CRLF + "--");
    FindAfterDrop(s.buf, d, pos);
    var u := s.Pass(pos);
    PassTwice(s, pos, |content| - pos);
    assert s.buf[|content|..][|d|..] == t;
    assert ToDashes(s) == u && u.buf == s.buf[pos..] && u.Delimiter() == d;
  }

  /** What follows the opening line of a form. */
  function Rest(parts: seq<Sent>, b: string): string
    requires |parts| > 0
  {
    HeadOf(parts[0].lines) + parts[0].content + (CRLF + "--" + b) +
    if |parts| == 1 then "--" + CRLF else CRLF + Rest(parts[1..], b)
  }

  function Filled(p: Sent, s: State): State {
    s.(file := Info(p), items := s.items + [Received(p)])
  }

  /** From the beginning of a part to just behind the delimiter that ends it. */
  lemma PartRead(s: State, p: Sent, t: string)
    requires s.state == 1 && GoodBoundary(s.boundary) && Carried(p, s.boundary)
    requires s.buf == HeadOf(p.lines) + p.content + s.Delimiter() + t
    ensures var n := |HeadOf(p.lines)| + |p.content| + |s.Delimiter()|;
      Parse(s) == Parse(Filled(p, s.Eat(n).(state := 4))) && s.Eat(n).buf == t
  {
    hide Parse, Headers, HeadOf, Find, Rank, Body, TakeAll;
    var d, h := s.Delimiter(), |HeadOf(p.lines)|;
    var u := s.(file := NOTHING, state := 2);
    ParseStep(s);
    assert u.buf == HeadOf(p.lines) + (p.content + d + t);
    HeadRead(u, p.lines, p.content + d + t);
    HeadSize(p.lines);
    ParseStep(u);
    var v := u.Eat(h).(state := 3, file := Info(p), items := s.items + [Info(p)]);
    ContentRead(v, p.content, t);
    ParseStep(v);
    EatTwice(s, h, |p.content|);
    EatTwice(s, h + |p.content|, |d|);
    assert v.buf[..|p.content|] == p.content;
    Fills(s.items, p);
  }

  lemma HeadSize(lines: seq<string>)
    ensures HeadOf(lines) != ""
  {
  }

  lemma Fills(items: seq<Item>, p: Sent)
    ensures Extend(items + [Info(p)], p.content) == items + [Received(p)]
  {
    hide TakeAll;
  }

  // ----- the whole form -----

  lemma Closed(s: State)
    requires s.state == 4 && s.buf == "--" + CRLF
    ensures Parse(s) == (s.Eat(4).(valid := true, state := 5), true) && s.Eat(4).buf == ""
  {
    hide Rank;
    ParseStep(s);
    assert s.buf[..2] == "--" && s.buf[..4] == "--" + CRLF;
  }

  lemma NextPart(s: State, t: string)
    requires s.state == 4 && s.buf == CRLF + t
    ensures Parse(s) == Parse(s.Eat(2).(state := 1)) && s.Eat(2).buf == t
  {
    hide Parse, Rank;
    ParseStep(s);
    assert s.buf[..2] == CRLF;
  }

  function AllReceived(parts: seq<Sent>): seq<Item> {
    seq(|parts|, i requires 0 <= i < |parts| => Received(parts[i]))
  }

  lemma ReceivedOne(parts: seq<Sent>)
    requires |parts| > 0
    ensures AllReceived(parts) == [Received(parts[0])] + AllReceived(parts[1..])
    ensures |parts| == 1 ==> AllReceived(parts) == [Received(parts[0])]
  {
    hide Info;
  }

  predicate AllCarried(parts: seq<Sent>, b: string) {
    GoodBoundary(b) && forall i :: 0 <= i < |parts| ==> Carried(parts[i], b)
  }

  lemma LastRead(s: State, p: Sent)
    requires s.state == 1 && GoodBoundary(s.boundary) && Carried(p, s.boundary) && s.buf == Rest([p], s.boundary)
    ensures Parse(s) == (State(s.boundary, "", 5, true, s.off + |s.buf|, Info(p), s.items + [Received(p)]), true)
  {
    hide Parse, HeadOf, Carried, Find, Info, Received;
    var n := |HeadOf(p.lines)| + |p.content| + |s.Delimiter()|;
    PartRead(s, p, "--" + CRLF);
    Closed(Filled(p, s.Eat(n).(state := 4)));
    EatTwice(s, n, 4);
  }

  lemma RestMore(parts: seq<Sent>, b: string)
    requires |parts| > 1
    ensures Rest(parts, b) ==
      HeadOf(parts[0].lines) + parts[0].content + (CRLF + "--" + b) + (CRLF + Rest(parts[1..], b))
  {
  }

  lemma OneOfMore(s: State, parts: seq<Sent>)
    requires s.state == 1 && |parts| > 1 && s.buf == Rest(parts, s.boundary)
    requires GoodBoundary(s.boundary) && Carried(parts[0], s.boundary)
    ensures var n := |s.buf| - |Rest(parts[1..], s.boundary)|;
      n >= 0 && Parse(s) == Parse(Filled(parts[0], s.Eat(n).(state := 1))) &&
      s.Eat(n).buf == Rest(parts[1..], s.boundary)
  {
    hide Parse, HeadOf, Carried, Find, Info, Received, Rest;
    var p, t := parts[0], Rest(parts[1..], s.boundary);
    RestMore(parts, s.boundary);
    var n := |HeadOf(p.lines)| + |p.content| + |s.Delimiter()|;
    PartRead(s, p, CRLF + t);
    NextPart(Filled(p, s.Eat(n).(state := 4)), t);
    EatTwice(s, n, 2);
  }

  lemma {:induction false} RestRead(s: State, parts: seq<Sent>)
    requires s.state == 1 && |parts| > 0 && s.buf == Rest(parts, s.boundary) && AllCarried(parts, s.boundary)
    ensures Parse(s) ==
      (State(s.boundary, "", 5, true, s.off + |s.buf|, Info(parts[|parts| - 1]), s.items + AllReceived(parts)), true)
    decreases |parts|
  {
    hide Parse, Rest, Carried, Info, Received, AllReceived;
    ReceivedOne(parts);
    if |parts| == 1 {
      assert parts == [parts[0]];
      LastRead(s, parts[0]);
    } else {
      OneOfMore(s, parts);
      var n := |s.buf| - |Rest(parts[1..], s.boundary)|;
      RestRead(Filled(parts[0], s.Eat(n).(state := 1)), parts[1..]);
      assert s.items + [Received(parts[0])] + AllReceived(parts[1..]) == s.items + AllReceived(parts);
    }
  }

  function BodyOf(parts: seq<Sent>, b: string): string
    requires |parts| > 0
  {
    "--" + b + CRLF + Rest(parts, b)
  }

  /** A body of parts with any header lines, handed over in one piece: it is taken, the parser ends valid with
      nothing left, and its receiver holds for each part what its header lines say, and its content. */
  lemma PartsRoundTrip(parts: seq<Sent>, b: string)
    requires |parts| > 0 && AllCarried(parts, b)
    ensures Parse(State(b, BodyOf(parts, b), 0, false, 0, NOTHING, [])) ==
      (State(b, "", 5, true, |BodyOf(parts, b)|, Info(parts[|parts| - 1]), AllReceived(parts)), true)
  {
    hide Parse, Rest, Find, Info, Received;
    var s := State(b, BodyOf(parts, b), 0, false, 0, NOTHING, []);
    var p := s.Opening();
    Opened(s, Rest(parts, b));
    RestRead(s.Eat(|p|).(state := 1), parts);
    assert [] + AllReceived(parts) == AllReceived(parts);
  }

  // ----- what the builder sends -----

  function AllArrived(items: seq<Item>): seq<Item> {
    seq(|items|, i requires 0 <= i < |items| => Arrived(items[i]))
  }

  predicate AllSendable(items: seq<Item>, b: string) {
    GoodBoundary(b) && forall i :: 0 <= i < |items| ==> Sendable(items[i], b)
  }

  function AllSent(items: seq<Item>): seq<Sent> {
    seq(|items|, i requires 0 <= i < |items| => AsSent(items[i]))
  }

  lemma SentOne(items: seq<Item>)
    requires |items| > 0
    ensures AllSent(items) == [AsSent(items[0])] + AllSent(items[1..]) && AllSent(items)[1..] == AllSent(items[1..])
  {
    hide AsSent;
  }

  lemma {:induction false} TakeMore(file: Item, a: seq<string>, b: seq<string>)
    ensures TakeAll(file, a + b) == TakeAll(TakeAll(file, a), b)
    decreases |a|
  {
    hide TakeHeader;
    if |a| == 0 {
      assert a + b == b;
    } else {
      assert (a + b)[1..] == a[1..] + b;
      TakeMore(TakeHeader(file, a[0]), a[1..], b);
    }
  }

  lemma TakeOne(file: Item, line: string)
    ensures TakeAll(file, [line]) == TakeHeader(file, line)
  {
    hide TakeHeader;
    assert [line][1..] == [];
  }

  lemma TypeInfo(file: Item, item: Item)
    requires file.contentType == ""
    ensures TakeAll(file, if item.contentType != "" then [TYPE_START + item.contentType] else []) ==
      file.(contentType := Trim(item.contentType))
  {
    hide TakeHeader;
    if item.contentType != "" {
      TakeOne(file, TYPE_START + item.contentType);
      TypeTaken(file, item.contentType);
    }
  }

  lemma AsSentIs(item: Item, b: string)
    requires Sendable(item, b)
    ensures Carried(AsSent(item), b) && Info(AsSent(item)) == FileInfo(item) && Received(AsSent(item)) == Arrived(item)
  {
    hide TakeAll, TakeHeader, Find, DispositionLine;
    var line := DispositionLine(item);
    DispositionOnOneLine(item);
    if item.contentType != "" {
      TypeOnOneLine(item.contentType);
    }
    DispositionTaken(NOTHING, item);
    TakeOne(NOTHING, line);
    var more := if item.contentType != "" then [TYPE_START + item.contentType] else [];
    TakeMore(NOTHING, [line], more);
    TypeInfo(NOTHING.(name := item.name, filename := item.filename), item);
    assert "" + item.content == item.content;
  }

  lemma HeadOfItem(item: Item)
    ensures HeadOf(LinesOf(item)) == Head(item)
  {
    hide DispositionLine;
    var line, kind := DispositionLine(item), TYPE_START + item.contentType;
    var more := if item.contentType != "" then [kind] else [];
    assert LinesOf(item)[1..] == more;
    assert HeadOf(LinesOf(item)) == line + CRLF + HeadOf(more);
    if item.contentType != "" {
      assert [kind][1..] == [];
      assert line + CRLF + (kind + CRLF + CRLF) == line + CRLF + (kind + CRLF) + CRLF;
    } else {
      assert line + CRLF + CRLF == line + CRLF + "" + CRLF;
    }
  }

  lemma {:induction false} PartsFront(items: seq<Item>, b: string)
    requires |items| > 0
    ensures Parts(items, b) == Part(items[0], b) + Parts(items[1..], b)
  {
    hide Part;
    var k := |items| - 1;
    if k == 0 {
      assert items[..0] == [] && items[1..] == [];
    } else {
      PartsFront(items[..k], b);
      assert items[..k][1..] == items[1..][..k - 1];
    }
  }

  lemma {:induction false} FormIs(items: seq<Item>, b: string)
    requires |items| > 0
    ensures Form(items, b) == BodyOf(AllSent(items), b)
  {
    hide Head, Parts, Part, HeadOf, LinesOf;
    PartsFront(items, b);
    SentOne(items);
    HeadOfItem(items[0]);
    var more := if |items| == 1 then "--" + CRLF else CRLF + Rest(AllSent(items[1..]), b);
    if |items| == 1 {
      assert items[1..] == [];
      NoParts(b);
    } else {
      FormIs(items[1..], b);
    }
    assert Form(items, b) == Part(items[0], b) + Form(items[1..], b);
    assert Form(items[1..], b) == "--" + b + more;
    Regrouped(items[0], b, more);
  }

  lemma NoParts(b: string)
    ensures Form([], b) == "--" + b + ("--" + CRLF)
  {
  }

  lemma Regrouped(item: Item, b: string, more: string)
    ensures Part(item, b) + ("--" + b + more) ==
      "--" + b + CRLF + (Head(item) + item.content + (CRLF + "--" + b) + more)
  {
    hide Head;
  }

  /** For one or more items, any boundary the client accepts, and a parser in its initial state: the body handed over in
      one piece is taken, the parser ends valid with nothing left, and its receiver holds the items in order,
      each with its content type trimmed. */
  lemma FormRoundTrip(items: seq<Item>, b: string)
    requires |items| > 0 && AllSendable(items, b)
    ensures Parse(State(b, Form(items, b), 0, false, 0, NOTHING, [])) ==
      (State(b, "", 5, true, |Form(items, b)|, FileInfo(items[|items| - 1]), AllArrived(items)), true)
  {
    hide Parse, Rest, Find, Form, AsSent, Carried, Received, Info, Sendable, Arrived, FileInfo;
    FormIs(items, b);
    var parts := AllSent(items);
    forall i | 0 <= i < |items|
      ensures Carried(parts[i], b) && Info(parts[i]) == FileInfo(items[i]) && Received(parts[i]) == Arrived(items[i])
    {
      AsSentIs(items[i], b);
    }
    PartsRoundTrip(parts, b);
    assert AllReceived(parts) == AllArrived(items);
  }

  /** Header lines that say nothing about the field. */
  predicate Others(lines: seq<string>) {
    forall i :: 0 <= i < |lines| ==>
      && lines[i] != "" && Find(lines[i], CRLF) < 0
      && !Begins(lines[i], "content-type:") && !Begins(lines[i], "content-disposition:")
  }

  lemma {:induction false} OthersTaken(file: Item, lines: seq<string>)
    requires Others(lines)
    ensures TakeAll(file, lines) == file
    decreases |lines|
  {
    hide Begins, TakeHeader, Find;
    if |lines| > 0 {
      OtherLine(file, lines[0]);
      OthersTaken(file, lines[1..]);
    }
  }

  /** Other lines before, between and behind the two lines of an item. */
  datatype Extra = Extra(before: seq<string>, between: seq<string>, behind: seq<string>)

  predicate ExtraOk(e: Extra) { Others(e.before) && Others(e.between) && Others(e.behind) }

  function WithExtra(item: Item, e: Extra): Sent {
    Sent(e.before + ([DispositionLine(item)] + (e.between +
         ((if item.contentType != "" then [TYPE_START + item.contentType] else []) + e.behind))), item.content)
  }

  /** They change nothing. */
  lemma ExtraIgnored(item: Item, e: Extra, b: string)
    requires Sendable(item, b) && ExtraOk(e)
    ensures Carried(WithExtra(item, e), b) && Received(WithExtra(item, e)) == Arrived(item)
  {
    hide TakeAll, TakeHeader, Find, DispositionLine, Begins;
    var line := DispositionLine(item);
    var kind := if item.contentType != "" then [TYPE_START + item.contentType] else [];
    DispositionOnOneLine(item);
    if item.contentType != "" {
      TypeOnOneLine(item.contentType);
    }
    var more := e.between + (kind + e.behind);
    TakeMore(NOTHING, e.before, [line] + more);
    OthersTaken(NOTHING, e.before);
    TakeMore(NOTHING, [line], more);
    TakeOne(NOTHING, line);
    DispositionTaken(NOTHING, item);
    var file := NOTHING.(name := item.name, filename := item.filename);
    TakeMore(file, e.between, kind + e.behind);
    OthersTaken(file, e.between);
    TakeMore(file, kind, e.behind);
    TypeInfo(file, item);
    OthersTaken(TakeAll(file, kind), e.behind);
    assert "" + item.content == item.content;
  }

  /** So a form whose parts carry any number of such lines arrives as if it had none. */
  lemma FormWithExtras(items: seq<Item>, es: seq<Extra>, b: string) returns (parts: seq<Sent>)
    requires |items| == |es| > 0 && AllSendable(items, b) && forall i :: 0 <= i < |es| ==> ExtraOk(es[i])
    ensures |parts| == |items| && forall i :: 0 <= i < |items| ==> parts[i] == WithExtra(items[i], es[i])
    ensures var (s, ret) := Parse(State(b, BodyOf(parts, b), 0, false, 0, NOTHING, []));
      ret && s.valid && s.buf == "" && s.items == AllArrived(items)
  {
    hide Parse, Rest, Find, WithExtra, Carried, Received, Info, Sendable, Arrived, ExtraOk;
    parts := seq(|items|, i requires 0 <= i < |items| => WithExtra(items[i], es[i]));
    forall i | 0 <= i < |items| ensures Carried(parts[i], b) && Received(parts[i]) == Arrived(items[i]) {
      ExtraIgnored(items[i], es[i], b);
    }
    PartsRoundTrip(parts, b);
    assert AllReceived(parts) == AllArrived(items);
  }

  lemma Opened(s: State, t: string)
    requires s.state == 0 && s.buf == s.Opening() + t
    ensures Parse(s) == Parse(s.Eat(|s.Opening()|).(state := 1)) && s.Eat(|s.Opening()|).buf == t
  {
    hide Parse, Rank;
    assert s.buf[..|s.Opening()|] == s.Opening();
    ParseStep(s);
  }

  /** The items arrive exactly as they were given if and only if no content type has a blank at an end. */
  lemma ArriveAsGiven(items: seq<Item>)
    ensures AllArrived(items) == items <==> forall i :: 0 <= i < |items| ==> Trimmed(items[i].contentType)
  {
    hide Trim, Trimmed;
    forall i | 0 <= i < |items| ensures Arrived(items[i]) == items[i] <==> Trimmed(items[i].contentType) {
      TrimFixes(items[i].contentType);
    }
    if AllArrived(items) == items {
      forall i | 0 <= i < |items| ensures Trimmed(items[i].contentType) {
        assert AllArrived(items)[i] == items[i];
      }
    }
  }

  /** A form without items is refused. */
  lemma EmptyFormRefused(b: string)
    requires GoodBoundary(b)
    ensures Parse(State(b, Form([], b), 0, false, 0, NOTHING, [])) ==
      (State(b, Form([], b), 0, false, 0, NOTHING, []), false)
  {
    hide Parse, Rank, Find;
    var s := State(b, Form([], b), 0, false, 0, NOTHING, []);
    assert s.buf == "--" + b + "--" + CRLF;
    assert |s.Opening()| <= |s.buf| && s.buf[2 + |b|] == '-' && s.Opening()[2 + |b|] == '\r';
    FindFirst(s.buf, s.Opening());
    assert s.buf[..|s.Opening()|][2 + |b|] == '-';
    ParseStep(s);
  }
}
