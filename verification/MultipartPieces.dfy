/** A form handed to the parser in pieces, as it comes in from the network. */
module MultipartPieces {
  import opened Texts
  import opened Multipart
  import opened MultipartForms

  /** `parse` is called once for each piece, for as long as it answers true. */
  function Feed(s: State, pieces: seq<string>): (State, bool)
    decreases |pieces|
  {
    if |pieces| == 0 then (s, true)
    else
      var (t, ret) := Parse(s.(buf := s.buf + pieces[0]));
      if ret then Feed(t, pieces[1..]) else (t, false)
  }

  function Joined(pieces: seq<string>): string {
    if |pieces| == 0 then "" else pieces[0] + Joined(pieces[1..])
  }

  // ----- content that survives being cut up -----

  function Delimiter(b: string): string { CRLF + "--" + b }

  /** A line break and the dashes a delimiter begins with. */
  const DASHES := "\r\n--"

  predicate DashChar(c: char) { c == '\r' || c == '\n' || c == '-' }

  /** From r on, the next n characters of `w` are line breaks and dashes, and the one before, if any, is not. */
  predicate RunAt(w: string, r: nat, n: nat) {
    r + n <= |w| && (forall i :: r <= i < r + n ==> DashChar(w[i])) && (r > 0 ==> !DashChar(w[r - 1]))
  }

  /** Where the parser, waiting for a delimiter at the beginning of `c`, may find itself after delivering as many
      characters as the delimiter is long without having looked at what they are: behind a line break with dashes,
      or behind the beginning of a run of such characters. */
  ghost predicate Jump(c: string, b: string, j: nat) {
    var w, n := c + Delimiter(b), |Delimiter(b)|;
    var p := Find(w, DASHES);
    || (0 <= p < |c| && j == p + n)
    || (n <= j <= p + 3 && RunAt(w, j - n, n))
  }

  /** No such step leads past the end of the content. */
  ghost predicate Steady(c: string, b: string)
    decreases |c|
  {
    forall j: nat :: Jump(c, b, j) ==> j <= |c| && (0 < j ==> Steady(c[j..], b))
  }

  // ----- one call with part of the data -----

  function With(s: State, more: string): State { s.(buf := s.buf + more) }

  lemma EatWith(s: State, more: string, n: nat)
    requires n <= |s.buf|
    ensures With(s, more).Eat(n) == With(s.Eat(n), more) && With(s, more).Pass(n) == With(s.Pass(n), more)
  {
    assert (s.buf + more)[n..] == s.buf[n..] + more && (s.buf + more)[..n] == s.buf[..n];
  }

  /** What follows the delimiter that ends a part. */
  function Tail(parts: seq<Sent>, b: string): string {
    if |parts| == 0 then "--" + CRLF else CRLF + Rest(parts, b)
  }

  /** How far the parser is in the form, and what is still to come. */
  datatype Phase =
    | AtOpening(parts: seq<Sent>)
    | AtEntry(parts: seq<Sent>)
    | InHead(lines: seq<string>, content: string, parts: seq<Sent>)
    | InContent(content: string, parts: seq<Sent>)
    | BehindDelimiter(parts: seq<Sent>)
    | AtEnd

  predicate Lines(lines: seq<string>) { forall i :: 0 <= i < |lines| ==> lines[i] != "" && Find(lines[i], CRLF) < 0 }

  ghost predicate Fits(c: string, b: string) { Find(c, Delimiter(b)) < 0 && Steady(c, b) }

  ghost predicate Ready(parts: seq<Sent>, b: string) {
    forall i :: 0 <= i < |parts| ==> Lines(parts[i].lines) && Fits(parts[i].content, b)
  }

  /** State s, with `w` in its buffer and still to come. */
  ghost predicate On(s: State, w: string, ph: Phase) {
    var b := s.boundary;
    && GoodBoundary(b)
    && match ph
       case AtOpening(parts) => s.state == 0 && |parts| > 0 && Ready(parts, b) && w == BodyOf(parts, b)
       case AtEntry(parts) => s.state == 1 && |parts| > 0 && Ready(parts, b) && w == Rest(parts, b)
       case InHead(lines, c, parts) =>
         s.state == 2 && Lines(lines) && Fits(c, b) && Ready(parts, b)
         && w == HeadOf(lines) + (c + Delimiter(b) + Tail(parts, b))
       case InContent(c, parts) =>
         s.state == 3 && Fits(c, b) && Ready(parts, b) && w == c + Delimiter(b) + Tail(parts, b)
       case BehindDelimiter(parts) => s.state == 4 && Ready(parts, b) && w == Tail(parts, b)
       case AtEnd => s.state == 5 && w == ""
  }

  /** After one case of the switch: the same text is still to come, and to the same end. */
  ghost predicate Stepped(u: State, more: string, v: State, ph: Phase) {
    On(v, v.buf + more, ph) && Parse(With(v, more)) == Parse(With(u, more))
  }

  ghost predicate Went(u: State, more: string, ph: Phase) {
    match Switch(u)
    case Stop(v, ret) => ret && Stepped(u, more, v, ph)
    case Again(v) => Stepped(u, more, v, ph)
  }

  lemma OpeningStep(u: State, more: string, parts: seq<Sent>) returns (ph: Phase)
    requires u.buf != "" && On(u, u.buf + more, AtOpening(parts))
    ensures Went(u, more, ph)
  {
    hide Parse, Rest, Find, Ready;
    var p, n := u.Opening(), |u.Opening()|;
    if n > |u.buf| {
      ph := AtOpening(parts);
    } else {
      ph := AtEntry(parts);
      assert With(u, more).buf == p + Rest(parts, u.boundary);
      Opened(With(u, more), Rest(parts, u.boundary));
      EatWith(u, more, n);
      FrontOf(u.buf, more, n);
      AtFront(u.buf, p);
    }
  }

  lemma FrontOf(a: string, more: string, n: nat)
    requires n <= |a|
    ensures (a + more)[..n] == a[..n]
  {
  }

  lemma AtFront(s: string, p: string)
    requires |p| <= |s| && s[..|p|] == p
    ensures Find(s, p) == 0
  {
  }

  lemma EntryStep(u: State, more: string, parts: seq<Sent>) returns (ph: Phase)
    requires u.buf != "" && On(u, u.buf + more, AtEntry(parts))
    ensures Went(u, more, ph)
  {
    hide Parse, HeadOf, Find, Rank, Steady;
    var p := parts[0];
    ph := InHead(p.lines, p.content, parts[1..]);
    ParseStep(With(u, more));
    RestIs(parts, u.boundary);
  }

  lemma RestIs(parts: seq<Sent>, b: string)
    requires |parts| > 0
    ensures Rest(parts, b) ==
      HeadOf(parts[0].lines) + (parts[0].content + Delimiter(b) + Tail(parts[1..], b))
  {
    hide HeadOf;
    Grouped(HeadOf(parts[0].lines), parts[0].content, Delimiter(b), Tail(parts[1..], b));
    RestUnfolds(parts, b);
  }

  lemma RestUnfolds(parts: seq<Sent>, b: string)
    requires |parts| > 0
    ensures Rest(parts, b) == HeadOf(parts[0].lines) + parts[0].content + Delimiter(b) + Tail(parts[1..], b)
  {
    hide HeadOf;
  }

  lemma Joins(a: string, b: string, c: string)
    ensures a + b + c == a + (b + c)
  {
  }

  lemma Grouped(h: string, c: string, d: string, t: string)
    ensures h + c + d + t == h + (c + d + t)
  {
  }

  // ----- header lines -----

  lemma NoBreak(line: string, n: nat)
    requires Find(line, CRLF) < 0 && n <= |line| + 1
    ensures Find((line + "\r")[..n], CRLF) < 0
  {
    hide Find;
    var s := (line + "\r")[..n];
    FindFirst(line, CRLF);
    FindFirst(s, CRLF);
    var k := Find(s, CRLF);
    if k >= 0 {
      BreakAt(s, k);
      assert k + 1 < |line|;
      assert line[k] == s[k] && line[k + 1] == s[k + 1];
      IsBreak(line, k);
    }
  }

  lemma BreakAt(s: string, k: nat)
    requires Occurs(s, CRLF, k)
    ensures k + 1 < |s| && s[k] == '\r' && s[k + 1] == '\n'
  {
    assert s[k..k + 2][0] == s[k] && s[k..k + 2][1] == s[k + 1];
  }

  lemma IsBreak(s: string, k: nat)
    requires k + 1 < |s| && s[k] == '\r' && s[k + 1] == '\n'
    ensures Occurs(s, CRLF, k)
  {
  }

  lemma NotYet(u: State, more: string, line: string, t: string)
    requires u.buf + more == line + CRLF + t && |u.buf| < |line| + 2 && Find(line, CRLF) < 0
    ensures Find(u.buf, CRLF) < 0 && Headers(u) == u
  {
    NoBreak(line, |u.buf|);
    assert u.buf == (u.buf + more)[..|u.buf|] == (line + "\r" + "\n" + t)[..|u.buf|];
    assert (line + "\r")[..|u.buf|] == (line + "\r" + "\n" + t)[..|u.buf|];
  }

  lemma SplitHead(lines: seq<string>, t: string)
    requires |lines| > 0
    ensures HeadOf(lines) + t == lines[0] + CRLF + (HeadOf(lines[1..]) + t)
  {
    Joins(lines[0] + CRLF, HeadOf(lines[1..]), t);
  }

  lemma FrontThere(s: string, more: string, a: string, w: string)
    requires s + more == a + w && |s| >= |a|
    ensures s == a + s[|a|..] && s[|a|..] + more == w
  {
    assert (s + more)[..|a|] == a && (s + more)[|a|..] == w;
  }

  /** The lines that are there completely are taken; the others are left for later. */
  lemma {:induction false} HeadersOn(u: State, more: string, lines: seq<string>, t: string) returns (left: seq<string>)
    requires u.state == 2 && Lines(lines) && u.buf + more == HeadOf(lines) + t
    ensures var r := Headers(u); r.boundary == u.boundary && Lines(left)
    ensures var r := Headers(u); r.state == 3 ==> r.buf + more == t && Headers(With(u, more)) == With(r, more)
    ensures var r := Headers(u);
      r.state != 3 ==>
        r.state == 2 && r.buf + more == HeadOf(left) + t && Headers(With(u, more)) == Headers(With(r, more))
    decreases |lines|
  {
    hide Headers, TakeHeader, Find, HeadOf;
    left := lines;
    if |lines| == 0 {
      assert HeadOf(lines) == CRLF by { NoLines(); }
      if |u.buf| < 2 {
        NotYet(u, more, "", t) by { EmptyHasNone(); }
      } else {
        FrontThere(u.buf, more, CRLF, t);
        LastLine(u, u.buf[2..]);
        LastLine(With(u, more), t);
        EatWith(u, more, 2);
      }
    } else {
      var line, n := lines[0], |lines[0]| + 2;
      var w := HeadOf(lines[1..]) + t;
      SplitHead(lines, t);
      if |u.buf| < n {
        NotYet(u, more, line, w);
      } else {
        var v := u.Eat(n).(file := TakeHeader(u.file, line));
        FrontThere(u.buf, more, line + CRLF, w);
        LineTaken(u, line, u.buf[n..]);
        LineTaken(With(u, more), line, w);
        EatWith(u, more, n);
        left := HeadersOn(v, more, lines[1..], t);
      }
    }
  }

  lemma NoLines()
    ensures HeadOf([]) == CRLF
  {
  }

  lemma EmptyHasNone()
    ensures Find("", CRLF) < 0
  {
  }

  lemma HeadStep(u: State, more: string, lines: seq<string>, c: string, parts: seq<Sent>) returns (ph: Phase)
    requires u.buf != "" && On(u, u.buf + more, InHead(lines, c, parts))
    ensures Went(u, more, ph)
  {
    hide Parse, Headers, HeadOf, Find, Rank, Fits, Ready, Lines;
    var t := c + Delimiter(u.boundary) + Tail(parts, u.boundary);
    var left := HeadersOn(u, more, lines, t);
    var r := Headers(u);
    ParseStep(With(u, more));
    if r.state == 3 {
      ph := InContent(c, parts);
    } else {
      ph := InHead(left, c, parts);
      HeadSize(left);
      ParseStep(With(r, more));
    }
  }

  // ----- behind a delimiter -----

  lemma BehindStep(u: State, more: string, parts: seq<Sent>) returns (ph: Phase)
    requires u.buf != "" && On(u, u.buf + more, BehindDelimiter(parts))
    ensures Went(u, more, ph)
  {
    hide Parse, Rest, Find, Ready;
    var w := u.buf + more;
    if |u.buf| < 2 {
      ph := BehindDelimiter(parts);
    } else if |parts| > 0 {
      ph := AtEntry(parts);
      assert u.buf[..2] == w[..2] == CRLF;
      NextPart(With(u, more), Rest(parts, u.boundary));
      EatWith(u, more, 2);
    } else {
      assert u.buf[..2] == w[..2] == "--";
      if |u.buf| < 4 {
        ph := BehindDelimiter(parts);
      } else {
        ph := AtEnd;
        assert u.buf == w && more == "";
        assert With(u, more) == u;
        Closed(u);
        assert u.buf[..4] == u.buf;
        AtTheEnd(u.Eat(4).(valid := true, state := 5));
        assert With(u.Eat(4).(valid := true, state := 5), more) == u.Eat(4).(valid := true, state := 5);
      }
    }
  }

  lemma AtTheEnd(s: State)
    requires s.buf == ""
    ensures Parse(s) == (s, true)
  {
  }

  // ----- content -----

  /** A text of which the buffer holds the beginning: the first line break with dashes is found where it is, once
      all of it is there. */
  lemma FoundInTime(w: string, n: nat)
    requires n <= |w| && Find(w, DASHES) >= 0
    ensures Find(w[..n], DASHES) == if Find(w, DASHES) + 4 <= n then Find(w, DASHES) else -1
  {
    hide Find;
    var p, s := Find(w, DASHES), w[..n];
    FindFirst(w, DASHES);
    FindFirst(s, DASHES);
    forall j: nat | j < p || n < j + 4 ensures !Occurs(s, DASHES, j) {
      assert !Occurs(w, DASHES, j) || j + 4 > n;
      if j + 4 <= n {
        assert s[j..j + 4] == w[j..j + 4];
      }
    }
    if p + 4 <= n {
      assert s[p..p + 4] == w[p..p + 4];
      FindIs(s, DASHES, p);
    }
  }

  /** Where the safe part of the buffer ends: behind it there are only line breaks and dashes. */
  lemma {:induction false} SafeIs(s: string, pos: nat)
    requires pos <= |s|
    ensures var n := Safe(s, pos);
      (forall i :: n <= i < pos ==> DashChar(s[i])) && (n > 0 ==> !DashChar(s[n - 1]))
  {
    if pos > 0 && s[pos - 1] in "\r\n-" {
      SafeIs(s, pos - 1);
    }
  }

  lemma DashesAt(w: string, p: nat)
    requires Occurs(w, DASHES, p)
    ensures p + 4 <= |w| && w[p] == '\r' && w[p + 1] == '\n' && w[p + 2] == '-' && w[p + 3] == '-'
  {
    assert w[p..p + 4][0] == w[p] && w[p..p + 4][1] == w[p + 1] && w[p..p + 4][2] == w[p + 2] &&
      w[p..p + 4][3] == w[p + 3];
  }

  /** The first line break with dashes in the content and its delimiter. */
  lemma FirstDashes(c: string, b: string)
    ensures var w := c + Delimiter(b); 0 <= Find(w, DASHES) <= |c| && Occurs(w, DASHES, Find(w, DASHES))
  {
    hide Find;
    var w := c + Delimiter(b);
    FindFirst(w, DASHES);
    assert w[|c|..|c| + 4] == DASHES;
    assert Occurs(w, DASHES, |c|);
  }

  /** Delivering what is surely content leaves content of the same kind. */
  lemma SteadyDrop(c: string, b: string, n: nat)
    requires Steady(c, b)
    requires var w := c + Delimiter(b); n <= Find(w, DASHES) && (n == 0 || n == Find(w, DASHES) || !DashChar(w[n - 1]))
    ensures n <= |c| && Steady(c[n..], b)
  {
    hide Find, Steady;
    var w, p := c + Delimiter(b), Find(c + Delimiter(b), DASHES);
    FirstDashes(c, b);
    forall j: nat | Jump(c[n..], b, j) ensures j <= |c| - n && 0 < j && Steady(c[n..][j..], b) {
      JumpShifts(c, b, n, j);
      SteadyAt(c, b, n + j);
      assert c[n..][j..] == c[n + j..];
    }
    SteadyIf(c[n..], b);
  }

  lemma SteadyAt(c: string, b: string, j: nat)
    requires Steady(c, b) && Jump(c, b, j)
    ensures 4 <= j <= |c| && Steady(c[j..], b)
  {
    hide Find;
  }

  lemma SteadyIf(c: string, b: string)
    requires forall j: nat :: Jump(c, b, j) ==> j <= |c| && 0 < j && Steady(c[j..], b)
    ensures Steady(c, b)
  {
    hide Jump;
  }

  lemma JumpShifts(c: string, b: string, n: nat, j: nat)
    requires n <= |c| && Jump(c[n..], b, j)
    requires var w := c + Delimiter(b); n <= Find(w, DASHES) && (n == 0 || n == Find(w, DASHES) || !DashChar(w[n - 1]))
    ensures Jump(c, b, n + j) && j >= 4
  {
    hide Find, DashChar;
    var w, m := c + Delimiter(b), |Delimiter(b)|;
    FirstDashes(c, b);
    assert c[n..] + Delimiter(b) == w[n..];
    FindAfterDrop(w, DASHES, n);
    if m <= j <= Find(w, DASHES) - n + 3 && RunAt(w[n..], j - m, m) {
      RunShifts(w, n, j - m, m);
    }
  }

  lemma RunShifts(w: string, n: nat, r: nat, m: nat)
    requires n <= |w| && RunAt(w[n..], r, m) && (r > 0 || n == 0 || !DashChar(w[n - 1]))
    ensures RunAt(w, n + r, m)
  {
    hide DashChar;
    forall i | n + r <= i < n + r + m ensures DashChar(w[i]) {
      assert w[i] == w[n..][i - n];
    }
  }

  /** From any point of the content on, the whole of it is delivered once it is all there. */
  lemma WholeContent(s: State, c: string, t: string)
    requires s.state == 3 && s.buf == c + Delimiter(s.boundary) + t && GoodBoundary(s.boundary)
    requires Find(c, Delimiter(s.boundary)) < 0
    ensures Parse(s) == Parse(s.Pass(|c|).Eat(|Delimiter(s.boundary)|).(state := 4))
  {
    hide Parse, Body, Find, Rank, Extend;
    ContentRead(s, c, t);
    assert s.buf != "" by { LongEnough(c, s.boundary, t); }
    ParseStep(s);
  }

  lemma LongEnough(c: string, b: string, t: string)
    ensures |c + Delimiter(b) + t| >= 4 && |Delimiter(b)| >= 4
  {
  }

  lemma NotInside(c: string, b: string, n: nat)
    requires n <= |c| && Find(c, Delimiter(b)) < 0
    ensures Find(c[n..], Delimiter(b)) < 0
  {
    hide Find, Occurs;
    var d := Delimiter(b);
    FindFirst(c, d);
    FindFirst(c[n..], d);
    if Find(c[n..], d) >= 0 {
      OccursDrop(c, d, n, Find(c[n..], d));
    }
  }

  /** Passing a part of the content on leads to the same end. */
  lemma PassedOn(u: State, more: string, c: string, parts: seq<Sent>, n: nat)
    requires On(u, u.buf + more, InContent(c, parts)) && n <= |u.buf| && n <= |c| && Steady(c[n..], u.boundary)
    ensures Stepped(u, more, u.Pass(n), InContent(c[n..], parts))
  {
    hide Parse, Find, Extend, Ready, Steady, Tail;
    var b, d := u.boundary, Delimiter(u.boundary);
    var t := Tail(parts, b);
    var whole := With(u, more);
    EatWith(u, more, n);
    NotInside(c, b, n);
    assert (c + d + t)[n..] == c[n..] + d + t;
    WholeContent(whole, c, t);
    WholeContent(whole.Pass(n), c[n..], t);
    PassTwice(whole, n, |c| - n);
  }

  lemma ContentStep(u: State, more: string, c: string, parts: seq<Sent>) returns (ph: Phase)
    requires u.buf != "" && On(u, u.buf + more, InContent(c, parts))
    ensures Went(u, more, ph)
  {
    hide Parse, Find, Extend, Ready, Steady, Tail;
    ph := InContent(c, parts);
    if |u.buf| >= 4 {
      var n := ToHead(u, more, c, parts);
      var v := u.Pass(n);
      ph := DelimiterStep(u, more, c, parts, n);
    }
  }

  /** The first half of the case: up to the first line break with dashes, or what is surely before one. */
  lemma ToHead(u: State, more: string, c: string, parts: seq<Sent>) returns (n: nat)
    requires |u.buf| >= 4 && On(u, u.buf + more, InContent(c, parts))
    ensures n <= |u.buf| && n <= |c| && ToDashes(u) == u.Pass(n) && Steady(c[n..], u.boundary)
    ensures Stepped(u, more, u.Pass(n), InContent(c[n..], parts))
    ensures Runs(u, c, n)
  {
    hide Parse, Find, Extend, Ready, Steady, Tail, Stepped;
    var b := u.boundary;
    var w, t, k := c + Delimiter(b), Tail(parts, b), |u.buf|;
    FirstDashes(c, b);
    WithTail(w, t, Find(w, DASHES));
    FoundInTime(w + t, if k <= |w + t| then k else 0);
    assert u.buf == (w + t)[..k];
    n := if Find(u.buf, DASHES) < 0 then Safe(u.buf, k) else Find(u.buf, DASHES);
    SafeIs(u.buf, k);
    assert CRLF + "--" == DASHES;
    HeadIsEarly(u.buf, w, t, n) by { DashesAt(w, Find(w, DASHES)); }
    SteadyDrop(c, b, n);
    PassedOn(u, more, c, parts, n);
  }

  lemma WithTail(w: string, t: string, p: nat)
    requires Find(w, DASHES) == p
    ensures Find(w + t, DASHES) == p
  {
    hide Find;
    FindFirst(w, DASHES);
    forall j: nat | j < p ensures !Occurs(w + t, DASHES, j) {
      assert !Occurs(w, DASHES, j);
      assert j + 4 <= |w| ==> (w + t)[j..j + 4] == w[j..j + 4];
    }
    assert (w + t)[p..p + 4] == w[p..p + 4];
    FindIs(w + t, DASHES, p);
  }

  /** How the parser came to wait at n: at a line break with dashes, or with nothing but such characters in the
      buffer. */
  ghost predicate Runs(u: State, c: string, n: nat)
    requires n <= |u.buf| && n <= |c|
  {
    var w := c + Delimiter(u.boundary);
    var p := Find(w, DASHES);
    && (n == 0 || n == p || !DashChar(w[n - 1]))
    && (n == p || (|u.buf| <= p + 3 && forall i :: n <= i < |u.buf| && i < |w| ==> DashChar(w[i])))
  }

  lemma HeadIsEarly(s: string, w: string, t: string, n: nat)
    requires Find(w, DASHES) >= 0 && Occurs(w, DASHES, Find(w, DASHES)) && |s| <= |w + t| && s == (w + t)[..|s|]
    requires n <= |s| && if Find(w, DASHES) + 4 <= |s| then n == Find(w, DASHES)
      else (forall i :: n <= i < |s| ==> DashChar(s[i])) && (n > 0 ==> !DashChar(s[n - 1]))
    ensures var p := Find(w, DASHES);
      && n <= p && (n == 0 || n == p || !DashChar(w[n - 1]))
      && (n == p || (|s| <= p + 3 && forall i :: n <= i < |s| ==> DashChar(w[i])))
  {
    hide Find;
    var p := Find(w, DASHES);
    DashesAt(w, p);
    if |s| <= p + 3 {
      assert forall i :: 0 <= i < |s| ==> s[i] == w[i];
    }
  }

  lemma FoundStays(s: string, more: string, d: string)
    ensures Find(s, d) >= 0 ==> 0 <= Find(s + more, d) <= Find(s, d) && Find(s, d) + |d| <= |s|
  {
    hide Find;
    FindFirst(s, d);
    FindFirst(s + more, d);
    var k := Find(s, d);
    if k >= 0 {
      assert (s + more)[k..k + |d|] == s[k..k + |d|];
      assert Occurs(s + more, d, k);
    }
  }

  lemma NotFoundYet(v: State, more: string, c: string, t: string)
    requires v.buf + more == c + Delimiter(v.boundary) + t && GoodBoundary(v.boundary)
    requires Find(c, Delimiter(v.boundary)) < 0 && |v.buf| < |c| + |Delimiter(v.boundary)|
    ensures Find(v.buf, Delimiter(v.boundary)) < 0
  {
    hide Find;
    DelimiterFound(With(v, more), c, t);
    FoundStays(v.buf, more, Delimiter(v.boundary));
  }

  /** The second half: the delimiter, or as many characters as it is long. */
  lemma DelimiterStep(u: State, more: string, c: string, parts: seq<Sent>, n: nat) returns (ph: Phase)
    requires |u.buf| >= 4 && On(u, u.buf + more, InContent(c, parts))
    requires n <= |u.buf| && n <= |c| && ToDashes(u) == u.Pass(n) && Steady(c[n..], u.boundary)
    requires Stepped(u, more, u.Pass(n), InContent(c[n..], parts)) && Runs(u, c, n)
    ensures Went(u, more, ph)
  {
    hide Parse, Find, Extend, Ready, Steady, Tail, State.Pass, State.Delimiter, Stepped, Runs, Delimiter, With;
    var b, d, v := u.boundary, Delimiter(u.boundary), u.Pass(n);
    var t := Tail(parts, b);
    NotInside(c, b, n);
    PassSize(u, n);
    SameDelimiter(u, v);
    ph := InContent(c[n..], parts);
    StillOn(u, more, v, ph);
    if |d| <= |v.buf| {
      if |c| - n + |d| <= |v.buf| {
        ph := BehindDelimiter(parts);
        ReadsDelimiter(v, more, c[n..], parts);
        var m := |c| - n;
        PassSize(v, m);
        SteppedTwice(u, more, v, InContent(c[n..], parts), v.Pass(m).Eat(|d|).(state := 4), ph);
      } else {
        NotFoundYet(v, more, c[n..], t);
        IsJump(u, c, n);
        SteadyAt(c, b, n + |d|);
        ph := InContent(c[n + |d|..], parts);
        PassedOn(u, more, c, parts, n + |d|);
        PassTwice(u, n, |d|);
        assert ToDelimiter(v) == Again(v.Pass(|d|));
      }
    }
  }

  lemma SteppedTwice(u: State, more: string, v: State, ph: Phase, y: State, next: Phase)
    requires Stepped(u, more, v, ph) && Stepped(v, more, y, next)
    ensures Stepped(u, more, y, next)
  {
    hide On;
  }

  lemma StillOn(u: State, more: string, v: State, ph: Phase)
    requires Stepped(u, more, v, ph)
    ensures On(v, v.buf + more, ph) && Parse(With(v, more)) == Parse(With(u, more))
  {
  }

  lemma IsJump(u: State, c: string, n: nat)
    requires n <= |u.buf| && n <= |c| && Runs(u, c, n)
    requires |Delimiter(u.boundary)| <= |u.buf| - n < |c| - n + |Delimiter(u.boundary)|
    ensures Jump(c, u.boundary, n + |Delimiter(u.boundary)|)
  {
    hide Find;
    FirstDashes(c, u.boundary);
  }

  lemma ReadsDelimiter(v: State, more: string, c: string, parts: seq<Sent>)
    requires On(v, v.buf + more, InContent(c, parts)) && |c| + |Delimiter(v.boundary)| <= |v.buf|
    ensures Find(v.buf, Delimiter(v.boundary)) == |c|
    ensures Stepped(v, more, v.Pass(|c|).Eat(|Delimiter(v.boundary)|).(state := 4), BehindDelimiter(parts))
  {
    hide Parse, Find, Extend, Ready, Steady, Tail;
    var d, t := Delimiter(v.boundary), Tail(parts, v.boundary);
    var x := v.buf[|c| + |d|..];
    assert v.buf == (v.buf + more)[..|v.buf|];
    assert v.buf == c + d + x && x + more == t;
    DelimiterFound(v, c, x);
    WholeContent(With(v, more), c, t);
    EatWith(v, more, |c|);
    EatWith(v.Pass(|c|), more, |d|);
    assert v.buf[|c|..][|d|..] == x;
  }

  // ----- one call, and all calls -----

  lemma OneStep(u: State, more: string, ph: Phase) returns (next: Phase)
    requires u.buf != "" && On(u, u.buf + more, ph)
    ensures Went(u, more, next)
  {
    hide Went, On, Switch;
    match ph
    case AtOpening(parts) => next := OpeningStep(u, more, parts);
    case AtEntry(parts) => next := EntryStep(u, more, parts);
    case InHead(lines, c, parts) => next := HeadStep(u, more, lines, c, parts);
    case InContent(c, parts) => next := ContentStep(u, more, c, parts);
    case BehindDelimiter(parts) => next := BehindStep(u, more, parts);
    case AtEnd => NothingLeft(u, more); next := ph;
  }

  lemma NothingLeft(u: State, more: string)
    requires On(u, u.buf + more, AtEnd)
    ensures u.buf == ""
  {
  }

  /** A call with the next piece: the parser answers true, and what is left leads to the same end. */
  lemma {:induction false} OneCall(u: State, more: string, ph: Phase) returns (next: Phase)
    requires On(u, u.buf + more, ph)
    ensures var (t, ret) := Parse(u); ret && Stepped(u, more, t, next)
    decreases Rank(u)
  {
    hide On, Switch, Parse, Rank;
    if u.buf == "" {
      AtTheEnd(u);
      next := ph;
    } else {
      next := OneStep(u, more, ph);
      ParseStep(u);
      if Switch(u).Again? {
        next := OneCall(Switch(u).s, more, next);
      }
    }
  }

  lemma OnSame(s: State, u: State, w: string, ph: Phase)
    requires On(s, w, ph) && u.boundary == s.boundary && u.state == s.state
    ensures On(u, w, ph)
  {
    hide Ready, Fits, Lines, HeadOf, Rest;
  }

  lemma {:induction false} AllCalls(s: State, pieces: seq<string>, ph: Phase)
    requires |pieces| > 0 && On(s, s.buf + Joined(pieces), ph)
    ensures Feed(s, pieces) == Parse(With(s, Joined(pieces))) && Parse(With(s, Joined(pieces))).1
    decreases |pieces|
  {
    hide On, Parse;
    var u, more := With(s, pieces[0]), Joined(pieces[1..]);
    assert s.buf + Joined(pieces) == u.buf + more;
    OnSame(s, u, u.buf + more, ph);
    var next := OneCall(u, more, ph);
    var (t, ret) := Parse(u);
    assert With(u, more) == With(s, Joined(pieces));
    if |pieces| > 1 {
      AllCalls(t, pieces[1..], next);
    } else {
      assert pieces[1..] == [] && With(u, "") == u;
      assert Feed(t, []) == (t, true);
    }
  }

  // ----- pieces that lose the delimiter -----

  /** Fields come one after the other, and their content only gets longer. */
  predicate Grows(a: seq<Item>, b: seq<Item>) {
    |a| <= |b| && forall i :: 0 <= i < |a| ==> |a[i].content| <= |b[i].content|
  }

  lemma {:induction false} HeadersGrow(s: State)
    ensures Grows(s.items, Headers(s).items)
    decreases |s.buf|
  {
    hide Find, TakeHeader;
    var pos := Find(s.buf, CRLF);
    if pos > 0 {
      HeadersGrow(s.Eat(pos + 2).(file := TakeHeader(s.file, s.buf[..pos])));
    }
  }

  lemma PassGrows(s: State, n: nat)
    requires n <= |s.buf|
    ensures Grows(s.items, s.Pass(n).items)
  {
  }

  lemma BodyGrows(s: State)
    ensures Grows(s.items, Body(s).s.items)
  {
    hide Find, Extend, Grows;
    if |s.buf| >= 4 {
      var n := if Find(s.buf, CRLF + "--") < 0 then Safe(s.buf, |s.buf|) else Find(s.buf, CRLF + "--");
      PassGrows(s, n);
      var v, d := s.Pass(n), s.Delimiter();
      assert v.Delimiter() == d && ToDashes(s) == v;
      if |d| <= |v.buf| {
        var m := if Find(v.buf, d) < 0 then |d| else Find(v.buf, d);
        PassGrows(v, m);
        GrowsTwice(s.items, v.items, v.Pass(m).items);
      }
    } else {
      Itself(s.items);
    }
  }

  lemma Itself(a: seq<Item>)
    ensures Grows(a, a)
  {
  }

  lemma GrowsTwice(a: seq<Item>, b: seq<Item>, c: seq<Item>)
    requires Grows(a, b) && Grows(b, c)
    ensures Grows(a, c)
  {
  }

  lemma SwitchGrows(s: State)
    ensures Grows(s.items, Switch(s).s.items)
  {
    hide Find, Headers, Body, Grows;
    Itself(s.items);
    if s.state == 2 {
      HeadersGrow(s);
    } else if s.state == 3 {
      BodyGrows(s);
    }
  }

  lemma {:induction false} ParseGrows(s: State)
    ensures Grows(s.items, Parse(s).0.items)
    decreases Rank(s)
  {
    hide Switch, Rank, Grows, Parse;
    if s.buf == "" {
      AtTheEnd(s);
      Itself(s.items);
    } else {
      ParseStep(s);
      SwitchGrows(s);
      if Switch(s).Again? {
        ParseGrows(Switch(s).s);
        GrowsTwice(s.items, Switch(s).s.items, Parse(s).0.items);
      }
    }
  }

  lemma {:induction false} FeedGrows(s: State, pieces: seq<string>)
    ensures Grows(s.items, Feed(s, pieces).0.items)
    decreases |pieces|
  {
    hide Parse, Grows;
    if |pieces| == 0 {
      Itself(s.items);
    } else {
      var u := With(s, pieces[0]);
      ParseGrows(u);
      if Parse(u).1 {
        FeedGrows(Parse(u).0, pieces[1..]);
        GrowsTwice(s.items, Parse(u).0.items, Feed(s, pieces).0.items);
      }
    }
  }

  lemma {:induction false} FeedMore(s: State, a: seq<string>, b: seq<string>)
    requires Feed(s, a).1
    ensures Feed(s, a + b) == Feed(Feed(s, a).0, b)
    decreases |a|
  {
    hide Parse;
    if |a| == 0 {
      assert a + b == b;
    } else {
      assert (a + b)[1..] == a[1..] + b;
      FeedMore(Parse(With(s, a[0])).0, a[1..], b);
    }
  }

  lemma {:induction false} JoinedMore(a: seq<string>, b: seq<string>)
    ensures Joined(a + b) == Joined(a) + Joined(b)
    decreases |a|
  {
    if |a| == 0 {
      assert a + b == b;
    } else {
      assert (a + b)[1..] == a[1..] + b;
      JoinedMore(a[1..], b);
    }
  }

  lemma OnePiece(s: State, piece: string)
    ensures Feed(s, [piece]) == (Parse(With(s, piece)).0, Parse(With(s, piece)).1) && Joined([piece]) == piece
  {
    hide Parse;
    assert [piece][1..] == [];
  }

  lemma NoDelimiterAt(c: string, b: string, n: nat)
    requires GoodBoundary(b) && Find(c, Delimiter(b)) < 0 && n < |c|
    ensures (c + Delimiter(b))[n..n + |Delimiter(b)|] != Delimiter(b)
  {
    hide Find;
    var d, w := Delimiter(b), c + Delimiter(b);
    DelimiterFound(State(b, w, 3, false, 0, NOTHING, []), c, "") by { assert w == w + ""; }
    FindFirst(w, d);
    assert !Occurs(w, d, n);
  }

  lemma PassesBlindly(u: State, n: nat)
    requires u.state == 3 && |u.buf| >= 4 && n + |u.Delimiter()| == |u.buf| && u.buf[n..] != u.Delimiter()
    requires n == if Find(u.buf, DASHES) < 0 then Safe(u.buf, |u.buf|) else Find(u.buf, DASHES)
    ensures Switch(u) == Again(u.Pass(|u.buf|))
  {
    hide Find, Extend, State.Pass, Safe;
    var d, v := u.Delimiter(), u.Pass(n);
    assert CRLF + "--" == DASHES;
    PassSize(u, n);
    NotThere(v.buf, d);
    PassTwice(u, n, |d|);
  }

  lemma PassSize(u: State, n: nat)
    requires n <= |u.buf|
    ensures u.Pass(n).buf == u.buf[n..] && u.Pass(n).boundary == u.boundary && u.Pass(n).state == u.state
  {
  }

  lemma EmptyWith(s: State, x: string)
    requires s.buf == ""
    ensures With(s, x) == s.(buf := x) && s.Delimiter() == Delimiter(s.boundary) && |Delimiter(s.boundary)| >= 4
  {
    assert "" + x == x;
  }

  lemma PassAll(u: State)
    ensures u.Pass(|u.buf|).buf == ""
  {
  }

  lemma Middle(w: string, n: nat, j: nat)
    requires n <= j <= |w|
    ensures w[..j][n..] == w[n..j] && |w[..j]| == j
  {
  }

  /** A piece that makes the parser jump. */
  lemma OneJump(s: State, c: string, j: nat)
    requires s.state == 3 && s.buf == "" && GoodBoundary(s.boundary) && Find(c, Delimiter(s.boundary)) < 0
    requires Jump(c, s.boundary, j)
    ensures j <= |c + Delimiter(s.boundary)| && j >= 4
    ensures var u := With(s, (c + Delimiter(s.boundary))[..j]); |u.buf| == j && Parse(u) == (u.Pass(j), true)
  {
    hide Find, Parse, Extend, Rank, Switch, Jump, State.Pass, State.Delimiter, Delimiter, With, Safe;
    var b, d := s.boundary, Delimiter(s.boundary);
    var w := c + d;
    JumpsFrom(c, b, j);
    EmptyWith(s, w[..j]);
    var u, n := s.(buf := w[..j]), j - |d|;
    Middle(w, n, j);
    NoDelimiterAt(c, b, n);
    SameDelimiter(s, u);
    PassesBlindly(u, n);
    ParseStep(u);
    PassAll(u);
    AtTheEnd(u.Pass(j));
  }

  lemma SameDelimiter(s: State, u: State)
    requires u.boundary == s.boundary
    ensures u.Delimiter() == s.Delimiter() == Delimiter(s.boundary)
  {
  }

  lemma NotThere(s: string, d: string)
    requires |s| == |d| > 0 && s != d
    ensures Find(s, d) < 0
  {
    assert s[..|d|] == s;
  }

  /** Where it waits before the jump. */
  lemma JumpsFrom(c: string, b: string, j: nat)
    requires Jump(c, b, j)
    ensures var w, n := c + Delimiter(b), j - |Delimiter(b)|;
      && 0 <= n < |c| && 4 <= j <= |w|
      && n == if Find(w[..j], DASHES) < 0 then Safe(w[..j], j) else Find(w[..j], DASHES)
  {
    hide Find;
    var w, m := c + Delimiter(b), |Delimiter(b)|;
    var p := Find(w, DASHES);
    FirstDashes(c, b);
    FoundInTime(w, j);
    if !(p < |c| && j == p + m) {
      SafeIs(w[..j], j);
      OneStart(w[..j], Safe(w[..j], j), j - m);
    }
  }

  lemma OneStart(s: string, n: nat, r: nat)
    requires n <= |s| && r <= |s|
    requires (forall i :: n <= i < |s| ==> DashChar(s[i])) && (n > 0 ==> !DashChar(s[n - 1]))
    requires (forall i :: r <= i < |s| ==> DashChar(s[i])) && (r > 0 ==> !DashChar(s[r - 1]))
    ensures n == r
  {
    hide DashChar;
  }

  lemma ExtendOnce(items: seq<Item>, d: string)
    requires |items| > 0
    ensures |Extend(items, d)| == |items|
    ensures Extend(items, d)[|items| - 1].content == items[|items| - 1].content + d
    ensures forall i :: 0 <= i < |items| - 1 ==> Extend(items, d)[i] == items[i]
  {
  }

  lemma JumpResult(s: State, c: string, j: nat) returns (t: State)
    requires s.state == 3 && s.buf == "" && GoodBoundary(s.boundary) && Find(c, Delimiter(s.boundary)) < 0
    requires Jump(c, s.boundary, j)
    ensures 4 <= j <= |c + Delimiter(s.boundary)|
    ensures Feed(s, [(c + Delimiter(s.boundary))[..j]]) == (t, true) && Joined([(c + Delimiter(s.boundary))[..j]]) ==
      (c + Delimiter(s.boundary))[..j]
    ensures t.state == 3 && t.buf == "" && t.boundary == s.boundary
    ensures t.items == Extend(s.items, (c + Delimiter(s.boundary))[..j])
  {
    hide Find, Parse, Extend, Jump, Delimiter;
    var d := (c + Delimiter(s.boundary));
    OneJump(s, c, j);
    EmptyWith(s, d[..j]);
    t := With(s, d[..j]).Pass(j);
    OnePiece(s, d[..j]);
    assert d[..j][..j] == d[..j] && d[..j][j..] == "";
  }

  lemma RestOfJump(c: string, b: string, j: nat, z: nat)
    requires j <= |c| && z <= |c[j..] + Delimiter(b)|
    ensures var w := c + Delimiter(b);
      c[j..] + Delimiter(b) == w[j..] && w[..j] + w[j..][..z] == w[..j + z] && j + z <= |w|
  {
    hide Delimiter;
  }

  /** Pieces after which the parser has delivered more than the content. */
  lemma {:induction false} BadPieces(s: State, c: string) returns (pieces: seq<string>, y: nat)
    requires s.state == 3 && s.buf == "" && GoodBoundary(s.boundary) && Find(c, Delimiter(s.boundary)) < 0
    requires !Steady(c, s.boundary)
    ensures var w := c + Delimiter(s.boundary);
      |c| < y <= |w| && Joined(pieces) == w[..y]
      && Feed(s, pieces).1 && Feed(s, pieces).0.items == Extend(s.items, w[..y])
    decreases |c|
  {
    hide Find, Parse, Extend, Jump, Delimiter, Feed, Joined;
    var b, w := s.boundary, c + Delimiter(s.boundary);
    var j: nat :| Jump(c, b, j) && !(j <= |c| && (0 < j ==> Steady(c[j..], b)));
    var t := JumpResult(s, c, j);
    if j > |c| {
      pieces, y := [w[..j]], j;
    } else {
      NotInside(c, b, j);
      var more, z := BadPieces(t, c[j..]);
      pieces, y := [w[..j]] + more, j + z;
      FeedMore(s, [w[..j]], more);
      JoinedMore([w[..j]], more);
      RestOfJump(c, b, j, z);
      ExtendTwice(s.items, w[..j], w[j..][..z]);
    }
  }

  /** The text of a form from the first entry to where the content of part k begins. */
  function Upto(parts: seq<Sent>, k: nat, b: string): string
    requires k < |parts|
  {
    if k == 0 then HeadOf(parts[0].lines)
    else HeadOf(parts[0].lines) + parts[0].content + Delimiter(b) + (CRLF + Upto(parts[1..], k - 1, b))
  }

  lemma Regrouped(h: string, c: string, d: string, u: string, e: string)
    ensures h + (c + d + (CRLF + (u + e))) == h + c + d + (CRLF + u) + e
  {
    Joins(CRLF, u, e);
    Joins(c + d, CRLF + u, e);
    Joins(h, c + d, CRLF + u + e);
    Joins(h, c, d);
    Joins(h + (c + d), CRLF + u, e);
  }

  lemma UptoUnfolds(parts: seq<Sent>, k: nat, b: string)
    requires 0 < k < |parts|
    ensures Upto(parts, k, b) ==
      HeadOf(parts[0].lines) + parts[0].content + Delimiter(b) + (CRLF + Upto(parts[1..], k - 1, b))
    ensures parts[1..][k - 1] == parts[k] && parts[1..][k..] == parts[k + 1..]
    ensures Tail(parts[1..], b) == CRLF + Rest(parts[1..], b)
  {
    hide HeadOf, Rest, Delimiter;
  }

  lemma {:induction false} UptoIs(parts: seq<Sent>, k: nat, b: string)
    requires k < |parts|
    ensures Rest(parts, b) == Upto(parts, k, b) + (parts[k].content + Delimiter(b) + Tail(parts[k + 1..], b))
    decreases k
  {
    hide HeadOf, Rest, Delimiter, Tail, Upto;
    RestIs(parts, b);
    if k == 0 {
      UptoFirst(parts, b);
    } else {
      UptoIs(parts[1..], k - 1, b);
      UptoUnfolds(parts, k, b);
      Regrouped(HeadOf(parts[0].lines), parts[0].content, Delimiter(b), Upto(parts[1..], k - 1, b),
                parts[k].content + Delimiter(b) + Tail(parts[k + 1..], b));
    }
  }

  lemma UptoFirst(parts: seq<Sent>, b: string)
    requires |parts| > 0
    ensures Upto(parts, 0, b) == HeadOf(parts[0].lines)
  {
  }

  lemma {:induction false} UptoRead(s: State, parts: seq<Sent>, k: nat)
    requires s.state == 1 && k < |parts| && AllCarried(parts, s.boundary) && s.buf == Upto(parts, k, s.boundary)
    ensures var (u, ret) := Parse(s);
      && ret && u.state == 3 && u.buf == "" && u.boundary == s.boundary
      && u.items == s.items + AllReceived(parts[..k]) + [Info(parts[k])]
    decreases k
  {
    hide Parse, HeadOf, Carried, Find, Info, Received, AllReceived, Rank, Delimiter, State.Delimiter, State.Eat;
    var p, b := parts[0], s.boundary;
    if k == 0 {
      HeadOnly(s, p);
      NoneReceived();
      assert parts[..0] == [];
    } else {
      var t := Upto(parts[1..], k - 1, b);
      var n := |HeadOf(p.lines)| + |p.content| + |s.Delimiter()|;
      SameDelimiter(s, s);
      EatKeeps(s, n);
      PartRead(s, p, CRLF + t);
      NextPart(Filled(p, s.Eat(n).(state := 4)), t);
      EatKeeps(Filled(p, s.Eat(n).(state := 4)), 2);
      EatKeeps(s, n + 2);
      EatTwice(s, n, 2);
      FilledEat(p, s, n);
      UptoRead(Filled(p, s.Eat(n + 2).(state := 1)), parts[1..], k - 1);
      assert parts[..k][1..] == parts[1..][..k - 1];
      ReceivedOne(parts[..k]);
      assert s.items + [Received(p)] + AllReceived(parts[1..][..k - 1]) == s.items + AllReceived(parts[..k]);
    }
  }

  lemma EatKeeps(s: State, n: nat)
    requires n <= |s.buf|
    ensures var t := s.Eat(n);
      t.boundary == s.boundary && t.state == s.state && t.items == s.items && t.buf == s.buf[n..]
  {
  }

  lemma FilledEat(p: Sent, s: State, n: nat)
    requires n + 2 <= |s.buf|
    ensures Filled(p, s.Eat(n).(state := 4)).Eat(2).(state := 1) == Filled(p, s.Eat(n + 2).(state := 1))
  {
    hide Info, Received;
    EatTwice(s, n, 2);
  }

  lemma NoneReceived()
    ensures AllReceived([]) == []
  {
  }

  lemma HeadOnly(s: State, p: Sent)
    requires s.state == 1 && Carried(p, s.boundary) && s.buf == HeadOf(p.lines)
    ensures var (u, ret) := Parse(s);
      ret && u.state == 3 && u.buf == "" && u.boundary == s.boundary && u.items == s.items + [Info(p)]
  {
    hide Parse, HeadOf, Find, Rank, Headers, TakeAll;
    HeadSize(p.lines);
    ParseStep(s);
    var u := s.(file := NOTHING, state := 2);
    assert u.buf == HeadOf(p.lines) + "";
    HeadRead(u, p.lines, "");
    ParseStep(u);
    AtTheEnd(Headers(u));
  }

  lemma {:induction false} InfoHasNoContent(file: Item, lines: seq<string>)
    ensures TakeAll(file, lines).content == file.content
    decreases |lines|
  {
    hide Disposition, Trim, StartsWith;
    if |lines| > 0 {
      InfoHasNoContent(TakeHeader(file, lines[0]), lines[1..]);
    }
  }

  // ----- the exact condition -----

  function Fresh(b: string): State { State(b, "", 0, false, 0, NOTHING, []) }

  ghost predicate AnyWay(parts: seq<Sent>, b: string)
    requires |parts| > 0
  {
    forall pieces :: Joined(pieces) == BodyOf(parts, b) ==>
      Feed(Fresh(b), pieces) == Parse(With(Fresh(b), BodyOf(parts, b)))
  }

  lemma SteadyGoesAnyWay(parts: seq<Sent>, b: string)
    requires |parts| > 0 && AllCarried(parts, b) && forall i :: 0 <= i < |parts| ==> Steady(parts[i].content, b)
    ensures AnyWay(parts, b)
  {
    hide Parse, Find, HeadOf, Rest, Steady;
    forall i | 0 <= i < |parts| ensures Lines(parts[i].lines) && Fits(parts[i].content, b) {
      assert Carried(parts[i], b);
    }
    forall pieces | Joined(pieces) == BodyOf(parts, b)
      ensures Feed(Fresh(b), pieces) == Parse(With(Fresh(b), BodyOf(parts, b)))
    {
      assert |pieces| > 0;
      assert "" + Joined(pieces) == BodyOf(parts, b);
      AllCalls(Fresh(b), pieces, AtOpening(parts));
    }
  }

  /** A way of cutting up the form after which the field of part k has more than its content. */
  lemma CutUpBadly(parts: seq<Sent>, b: string, k: nat) returns (pieces: seq<string>)
    requires k < |parts| && AllCarried(parts, b) && !Steady(parts[k].content, b)
    ensures Joined(pieces) == BodyOf(parts, b)
    ensures var items := Feed(Fresh(b), pieces).0.items; k < |items| && |items[k].content| > |parts[k].content|
  {
    hide Parse, Find, HeadOf, Rest, Steady, Info, Extend, Carried, AllReceived, Upto, Tail, Feed, Joined;
    var c, d, s := parts[k].content, Delimiter(b), Fresh(b);
    var front := "--" + b + CRLF + Upto(parts, k, b);
    Opened(With(s, front), Upto(parts, k, b));
    var u := With(s, front).Eat(|s.Opening()|).(state := 1);
    UptoRead(u, parts, k);
    OnePiece(s, front);
    var t := Parse(u).0;
    NotIn(parts, b, k);
    var bad, y := BadPieces(t, c);
    var w := c + d;
    FeedMore(s, [front], bad);
    var rest := w[y..] + Tail(parts[k + 1..], b);
    FeedMore(s, [front] + bad, [rest]);
    pieces := [front] + bad + [rest];
    var z := Feed(s, [front] + bad).0;
    LongField(t, parts, k, z, w[..y]);
    FeedGrows(z, [rest]);
    AllThere(parts, b, k, front, bad, rest, y);
  }

  lemma NotIn(parts: seq<Sent>, b: string, k: nat)
    requires k < |parts| && AllCarried(parts, b)
    ensures Find(parts[k].content, Delimiter(b)) < 0 && GoodBoundary(b)
  {
    assert Carried(parts[k], b);
  }

  lemma LongField(t: State, parts: seq<Sent>, k: nat, z: State, d: string)
    requires k < |parts| && t.items == AllReceived(parts[..k]) + [Info(parts[k])] && z.items == Extend(t.items, d)
    ensures k < |z.items| && |z.items[k].content| == |d|
  {
    ExtendOnce(t.items, d);
    InfoHasNoContent(NOTHING, parts[k].lines);
  }

  lemma AllThere(parts: seq<Sent>, b: string, k: nat, front: string, bad: seq<string>, rest: string, y: nat)
    requires k < |parts| && front == "--" + b + CRLF + Upto(parts, k, b)
    requires var w := parts[k].content + Delimiter(b);
      y <= |w| && Joined(bad) == w[..y] && rest == w[y..] + Tail(parts[k + 1..], b)
    ensures Joined([front] + bad + [rest]) == BodyOf(parts, b)
  {
    hide HeadOf, Rest, Upto, Tail, Joined, Delimiter;
    var w, t := parts[k].content + Delimiter(b), Tail(parts[k + 1..], b);
    UptoIs(parts, k, b);
    JoinedMore([front] + bad, [rest]);
    JoinedMore([front], bad);
    JoinedOne(front);
    JoinedOne(rest);
    CutInTwo("--" + b + CRLF, Upto(parts, k, b), w, t, y);
  }

  lemma JoinedOne(piece: string)
    ensures Joined([piece]) == piece
  {
    assert [piece][1..] == [];
  }

  lemma CutInTwo(o: string, u: string, w: string, t: string, y: nat)
    requires y <= |w|
    ensures o + u + w[..y] + (w[y..] + t) == o + (u + (w + t))
  {
    assert w[..y] + (w[y..] + t) == w + t;
    Joins(o + u, w[..y], w[y..] + t);
    Joins(o, u, w + t);
  }

  /** A form arrives in the same way however it is cut into pieces, exactly if the content of every part is steady. */
  lemma AnyPiecesExactly(parts: seq<Sent>, b: string)
    requires |parts| > 0 && AllCarried(parts, b)
    ensures AnyWay(parts, b) <==> forall i :: 0 <= i < |parts| ==> Steady(parts[i].content, b)
  {
    hide Parse, Find, HeadOf, Rest, Steady, Carried;
    if forall i :: 0 <= i < |parts| ==> Steady(parts[i].content, b) {
      SteadyGoesAnyWay(parts, b);
    } else {
      var k :| 0 <= k < |parts| && !Steady(parts[k].content, b);
      var pieces := CutUpBadly(parts, b, k);
      Whole(parts, b);
      ReceivedSize(parts, k);
    }
  }

  lemma Whole(parts: seq<Sent>, b: string)
    requires |parts| > 0 && AllCarried(parts, b)
    ensures Parse(With(Fresh(b), BodyOf(parts, b))).0.items == AllReceived(parts)
  {
    hide Parse, Rest, Carried, Received, Info;
    PartsRoundTrip(parts, b);
    assert "" + BodyOf(parts, b) == BodyOf(parts, b);
  }

  lemma ReceivedSize(parts: seq<Sent>, k: nat)
    requires k < |parts|
    ensures |AllReceived(parts)[k].content| == |parts[k].content|
  {
    InfoHasNoContent(NOTHING, parts[k].lines);
  }

  // ----- which contents are steady -----

  lemma JumpNeedsRun(c: string, b: string, j: nat)
    requires Find(c, DASHES) < 0 && Jump(c, b, j)
    ensures |Delimiter(b)| <= j <= |c| + 3 && RunAt(c + Delimiter(b), j - |Delimiter(b)|, |Delimiter(b)|)
  {
    hide Find, RunAt;
    FoundInside(c, b);
  }

  /** Content without a line break and dashes, and without as many such characters in a row as the delimiter is
      long, comes through however it is cut up. */
  lemma PlainIsSteady(c: string, b: string)
    requires Find(c, DASHES) < 0
    requires forall r: nat :: r + |Delimiter(b)| <= |c| + 3 ==> !RunAt(c + Delimiter(b), r, |Delimiter(b)|)
    ensures Steady(c, b)
  {
    hide Find, RunAt, Jump;
    forall j: nat | Jump(c, b, j)
      ensures |Delimiter(b)| <= j <= |c| + 3 && RunAt(c + Delimiter(b), j - |Delimiter(b)|, |Delimiter(b)|)
    {
      JumpNeedsRun(c, b, j);
    }
  }

  lemma FoundInside(c: string, b: string)
    requires Find(c, DASHES) < 0
    ensures Find(c + Delimiter(b), DASHES) == |c|
  {
    hide Find;
    FindBehind(c, DASHES, b);
    assert c + DASHES + b == c + Delimiter(b);
  }

  /** Content that ends with a line break and dashes does not: a piece that ends just so far behind it that the
      delimiter would have had room makes the parser deliver the beginning of the delimiter. */
  lemma DashesAtTheEnd(c: string, b: string)
    requires b != "" && Find(c, DASHES) < 0
    ensures !Steady(c + DASHES, b)
  {
    hide Find;
    var d := c + DASHES;
    FindBehind(c, DASHES, Delimiter(b));
    assert d + Delimiter(b) == c + DASHES + Delimiter(b);
    assert Jump(d, b, |c| + |Delimiter(b)|);
  }
}
