/** From HTML pages to the lines of raw.txt and back: tag stripping, the record format and its reader. */
module Records {
  // ----- stripping tags -----

  datatype Status = LABEL | CONTENT

  function Shown(c: char): char { if c == '\n' then ' ' else c }

  /** What the state machine keeps of `s` when it starts in the given state. */
  function Stripped(s: string, status: Status): string {
    if s == "" then ""
    else
      match status
      case LABEL => Stripped(s[1..], if s[0] == '>' then CONTENT else LABEL)
      case CONTENT => if s[0] == '<' then Stripped(s[1..], LABEL) else [Shown(s[0])] + Stripped(s[1..], CONTENT)
  }

  method ParseContent(result: string) returns (content: string)
    ensures content == Stripped(result, LABEL)
  {
    content := "";
    var status := LABEL;
    for i := 0 to |result|
      invariant content + Stripped(result[i..], status) == Stripped(result, LABEL)
    {
      var c := result[i];
      assert result[i..][1..] == result[i + 1..];
      match status {
        case LABEL =>
          if c == '>' { status := CONTENT; }
        case CONTENT =>
          if c == '<' {
            status := LABEL;
          } else {
            content := content + [Shown(c)];
          }
      }
    }
  }

  /** No line break and no tag opening survives, whatever the page. */
  lemma {:induction false} StrippedIsClean(s: string, status: Status)
    ensures forall i :: 0 <= i < |Stripped(s, status)| ==>
      Stripped(s, status)[i] != '\n' && Stripped(s, status)[i] != '<'
  {
    if s != "" {
      StrippedIsClean(s[1..], LABEL);
      StrippedIsClean(s[1..], CONTENT);
    }
  }

  /** A tag and the text behind it. */
  datatype Piece = Piece(tag: string, text: string)

  predicate Proper(p: Piece) { '>' !in p.tag && '<' !in p.text }

  function Html(pieces: seq<Piece>): string {
    if |pieces| == 0 then "" else "<" + pieces[0].tag + ">" + pieces[0].text + Html(pieces[1..])
  }

  function OnOneLine(s: string): string { seq(|s|, i requires 0 <= i < |s| => Shown(s[i])) }

  /** The texts as they are on the page, put together. */
  function Texts(pieces: seq<Piece>): string {
    if |pieces| == 0 then "" else pieces[0].text + Texts(pieces[1..])
  }

  lemma {:induction false} SkipTag(tag: string, rest: string)
    requires '>' !in tag
    ensures Stripped(tag + ">" + rest, LABEL) == Stripped(rest, CONTENT)
  {
    var s := tag + ">" + rest;
    if tag == "" {
      assert s[1..] == rest;
    } else {
      assert s[1..] == tag[1..] + ">" + rest;
      SkipTag(tag[1..], rest);
    }
  }

  lemma {:induction false} NeverClosed(tag: string)
    requires '>' !in tag
    ensures Stripped(tag, LABEL) == ""
  {
    if tag != "" {
      NeverClosed(tag[1..]);
    }
  }

  lemma {:induction false} KeepText(text: string, rest: string)
    requires '<' !in text
    ensures Stripped(text + rest, CONTENT) == OnOneLine(text) + Stripped(rest, CONTENT)
  {
    if text == "" {
      assert text + rest == rest;
    } else {
      assert (text + rest)[1..] == text[1..] + rest;
      KeepText(text[1..], rest);
      assert OnOneLine(text) == [Shown(text[0])] + OnOneLine(text[1..]);
    }
  }

  lemma OneLineJoins(a: string, b: string)
    ensures OnOneLine(a + b) == OnOneLine(a) + OnOneLine(b)
  {
  }

  /** Tags and texts, and perhaps a last tag that is not closed. */
  lemma {:induction false} StripsPieces(pieces: seq<Piece>, open: string)
    requires (forall p :: p in pieces ==> Proper(p)) && (open == "" || (open[0] == '<' && '>' !in open))
    ensures Stripped(Html(pieces) + open, CONTENT) == OnOneLine(Texts(pieces))
  {
    if |pieces| == 0 {
      assert Html(pieces) + open == open;
      if open != "" {
        NeverClosed(open[1..]);
      }
    } else {
      var p, rest := pieces[0], Html(pieces[1..]) + open;
      var inside := p.tag + ">" + (p.text + rest);
      assert Html(pieces) + open == ['<'] + inside;
      assert (['<'] + inside)[1..] == inside;
      assert Proper(p);
      SkipTag(p.tag, p.text + rest);
      KeepText(p.text, rest);
      StripsPieces(pieces[1..], open);
      OneLineJoins(p.text, Texts(pieces[1..]));
    }
  }

  /** A page as the state machine sees it: it starts inside a tag; `open` is a last tag that is not closed. */
  function Whole(pieces: seq<Piece>, open: string): string
    requires |pieces| > 0
  {
    pieces[0].tag + ">" + pieces[0].text + Html(pieces[1..]) + open
  }

  predicate WellCut(pieces: seq<Piece>, open: string) {
    |pieces| > 0 && (forall p :: p in pieces ==> Proper(p)) && (open == "" || (open[0] == '<' && '>' !in open))
  }

  /** Exactly the text between the tags is kept, in order, each character as it is, but a space for a line break. */
  lemma StripsTags(pieces: seq<Piece>, open: string)
    requires WellCut(pieces, open)
    ensures var kept, text := Stripped(Whole(pieces, open), LABEL), Texts(pieces);
      |kept| == |text| && forall i :: 0 <= i < |text| ==> kept[i] == (if text[i] == '\n' then ' ' else text[i])
  {
    var p, more := pieces[0], Html(pieces[1..]) + open;
    assert Proper(p);
    assert Whole(pieces, open) == p.tag + ">" + (p.text + more);
    SkipTag(p.tag, p.text + more);
    KeepText(p.text, more);
    StripsPieces(pieces[1..], open);
    OneLineJoins(p.text, Texts(pieces[1..]));
    assert Stripped(Whole(pieces, open), LABEL) == OnOneLine(Texts(pieces));
  }

  lemma {:induction false} CutAt(s: string, c: char) returns (a: string, b: string)
    requires c in s
    ensures s == a + [c] + b && c !in a
  {
    if s[0] == c {
      a, b := "", s[1..];
    } else {
      a, b := CutAt(s[1..], c);
      a := [s[0]] + a;
    }
  }

  /** Every text that starts with a tag opening, or is empty, is made of tags, texts and perhaps an open tag. */
  lemma {:induction false} IsHtml(s: string) returns (pieces: seq<Piece>, open: string)
    requires s == "" || s[0] == '<'
    ensures s == Html(pieces) + open && (forall p :: p in pieces ==> Proper(p))
    ensures open == "" || (open[0] == '<' && '>' !in open)
    decreases |s|
  {
    if '>' !in s {
      pieces, open := [], s;
    } else {
      var tag, more := CutAt(s[1..], '>');
      var text, rest := more, "";
      if '<' in more {
        text, rest := CutAt(more, '<');
        rest := ['<'] + rest;
      }
      assert s == "<" + tag + ">" + text + rest;
      pieces, open := IsHtml(rest);
      var p := Piece(tag, text);
      pieces := [p] + pieces;
      assert Html(pieces) == "<" + tag + ">" + text + Html(pieces[1..]);
    }
  }

  /** This covers every page: without a tag end nothing is kept, and every other page is of that form. */
  lemma EveryPage(s: string) returns (pieces: seq<Piece>, open: string)
    ensures '>' !in s ==> Stripped(s, LABEL) == ""
    ensures '>' in s ==> WellCut(pieces, open) && s == Whole(pieces, open)
  {
    pieces, open := [], "";
    if '>' !in s {
      NeverClosed(s);
    } else {
      var tag, more := CutAt(s, '>');
      var text, rest := more, "";
      if '<' in more {
        text, rest := CutAt(more, '<');
        rest := ['<'] + rest;
      }
      var others;
      others, open := IsHtml(rest);
      pieces := [Piece(tag, text)] + others;
      assert pieces[1..] == others;
      assert s == tag + ">" + text + rest;
      assert tag + ">" + text + (Html(others) + open) == tag + ">" + text + Html(others) + open;
    }
  }

  // ----- writing records -----

  datatype Page = Page(title: string, content: string, url: string)

  const SEP := '\U{0003}'

  function Record(p: Page): string { p.title + [SEP] + p.content + [SEP] + p.url }

  function Saved(pages: seq<Page>): string {
    if |pages| == 0 then "" else Saved(pages[..|pages| - 1]) + (Record(pages[|pages| - 1]) + "\n")
  }

  method SaveHtml(pages: seq<Page>) returns (out: string)
    ensures out == Saved(pages)
  {
    out := "";
    for i := 0 to |pages|
      invariant out == Saved(pages[..i])
    {
      var item := pages[i];
      var result := item.title;
      result := result + [SEP];
      result := result + item.content;
      result := result + [SEP];
      result := result + item.url;
      result := result + "\n";
      assert result == Record(item) + "\n";
      out := out + result;
      assert pages[..i + 1][..i] == pages[..i];
    }
    assert pages[..|pages|] == pages;
  }

  // ----- reading records -----

  /** How many characters there are before the first `c`. */
  function Before(s: string, c: char): (n: nat)
    ensures n <= |s| && (n < |s| ==> s[n] == c) && c !in s[..n]
  {
    if s == "" || s[0] == c then 0 else 1 + Before(s[1..], c)
  }

  /** `std::getline` until it fails. */
  function Lines(s: string): seq<string> {
    if s == "" then []
    else
      var n := Before(s, '\n');
      [s[..n]] + if n < |s| then Lines(s[n + 1..]) else []
  }

  function SkipSeps(s: string): string {
    if s != "" && s[0] == SEP then SkipSeps(s[1..]) else s
  }

  lemma {:induction false} SkipSepsShrinks(s: string)
    ensures |SkipSeps(s)| <= |s|
  {
    if s != "" && s[0] == SEP { SkipSepsShrinks(s[1..]); }
  }

  /** `boost::split` with compressed separators: a run of separators counts as one. */
  function CutString(s: string): seq<string>
    decreases |s|
  {
    var n := Before(s, SEP);
    if n == |s| then [s]
    else
      SkipSepsShrinks(s[n + 1..]);
      [s[..n]] + CutString(SkipSeps(s[n + 1..]))
  }

  predicate OneField(s: string) { SEP !in s && '\n' !in s }

  predicate Storable(p: Page) { OneField(p.title) && OneField(p.content) && OneField(p.url) }

  lemma {:induction false} BeforeIs(a: string, c: char, b: string)
    requires c !in a
    ensures Before(a + [c] + b, c) == |a|
  {
    if a != "" {
      assert (a + [c] + b)[1..] == a[1..] + [c] + b;
      BeforeIs(a[1..], c, b);
    }
  }

  lemma {:induction false} NotThere(a: string, c: char)
    requires c !in a
    ensures Before(a, c) == |a|
  {
    if a != "" {
      NotThere(a[1..], c);
    }
  }

  lemma CutFirst(a: string, rest: string)
    requires SEP !in a
    ensures CutString(a + [SEP] + rest) == [a] + CutString(SkipSeps(rest))
  {
    var s := a + [SEP] + rest;
    BeforeIs(a, SEP, rest);
    assert s[..|a|] == a && s[|a| + 1..] == rest;
  }

  lemma CutLast(a: string)
    requires SEP !in a
    ensures CutString(a) == [a]
  {
    NotThere(a, SEP);
  }

  lemma NothingToSkip(s: string)
    requires s == "" || s[0] != SEP
    ensures SkipSeps(s) == s && SkipSeps([SEP] + s) == s
  {
    assert ([SEP] + s)[1..] == s;
  }

  /** Cutting a record gives its three fields back, exactly if the content is not empty. */
  lemma CutRecord(p: Page)
    requires Storable(p)
    ensures CutString(Record(p)) == if p.content != "" then [p.title, p.content, p.url] else [p.title, p.url]
  {
    hide CutString, SkipSeps;
    var more := p.content + [SEP] + p.url;
    assert Record(p) == p.title + [SEP] + more;
    CutFirst(p.title, more);
    CutLast(p.url);
    NothingToSkip(p.url);
    if p.content != "" {
      assert more[0] == p.content[0];
      NothingToSkip(more);
      CutFirst(p.content, p.url);
    } else {
      assert more == [SEP] + p.url;
    }
  }

  lemma FirstLine(a: string, rest: string)
    requires '\n' !in a
    ensures Lines(a + ['\n'] + rest) == [a] + Lines(rest)
  {
    var s := a + ['\n'] + rest;
    BeforeIs(a, '\n', rest);
    assert s[..|a|] == a && s[|a| + 1..] == rest;
  }

  /** Text that ends its last line. */
  predicate Ended(a: string) { a == "" || a[|a| - 1] == '\n' }

  lemma {:induction false} LinesMore(a: string, line: string)
    requires '\n' !in line && Ended(a)
    ensures Lines(a + (line + "\n")) == Lines(a) + [line] && Ended(a + (line + "\n"))
    decreases |a|
  {
    hide Lines;
    var last := line + "\n";
    if a == "" {
      FirstLine(line, "");
      NoLines();
      assert a + last == line + ['\n'] + "";
    } else {
      var n := Before(a, '\n');
      assert a == a[..|a|];
      var rest := a[n + 1..];
      assert a == a[..n] + ['\n'] + rest;
      assert a + last == a[..n] + ['\n'] + (rest + last);
      FirstLine(a[..n], rest);
      FirstLine(a[..n], rest + last);
      LinesMore(rest, line);
    }
  }

  lemma NoLines()
    ensures Lines("") == []
  {
  }

  lemma RecordOnOneLine(p: Page)
    requires Storable(p)
    ensures '\n' !in Record(p)
  {
  }

  /** The lines of the saved file are the records, one each. */
  lemma {:induction false} LinesOfSaved(pages: seq<Page>)
    requires forall p :: p in pages ==> Storable(p)
    ensures |Lines(Saved(pages))| == |pages|
    ensures forall i :: 0 <= i < |pages| ==> Lines(Saved(pages))[i] == Record(pages[i])
    ensures Ended(Saved(pages))
  {
    hide Lines, Record;
    NoLines();
    if |pages| > 0 {
      var k := |pages| - 1;
      LinesOfSaved(pages[..k]);
      assert Storable(pages[k]);
      RecordOnOneLine(pages[k]);
      LinesMore(Saved(pages[..k]), Record(pages[k]));
    }
  }

  // ----- files and lines in general -----

  /** Field by field with the separator between, as often as the gaps say. */
  function Joined(fields: seq<string>, gaps: seq<nat>): string
    requires |fields| == |gaps| + 1
  {
    if |gaps| == 0 then fields[0]
    else fields[0] + Separators(gaps[0]) + Joined(fields[1..], gaps[1..])
  }

  function Separators(n: nat): string { seq(n, i requires 0 <= i < n => '\U{0003}') }

  /** Fields without a separator in them, empty only at the two ends, and at least one separator in each gap. */
  predicate Apart(fields: seq<string>, gaps: seq<nat>) {
    && |fields| == |gaps| + 1
    && (forall f :: f in fields ==> '\U{0003}' !in f)
    && (forall i :: 1 <= i < |gaps| ==> fields[i] != "")
    && (forall i :: 0 <= i < |gaps| ==> gaps[i] > 0)
  }

  lemma {:induction false} SkipsAll(n: nat, s: string)
    requires s == "" || s[0] != SEP
    ensures SkipSeps(Separators(n) + s) == s
  {
    if n == 0 {
      assert Separators(0) + s == s;
    } else {
      assert (Separators(n) + s)[1..] == Separators(n - 1) + s;
      SkipsAll(n - 1, s);
    }
  }

  /** Cutting gives exactly the fields, whatever the number of separators between them. */
  lemma {:induction false} CutFields(fields: seq<string>, gaps: seq<nat>)
    requires Apart(fields, gaps)
    ensures CutString(Joined(fields, gaps)) == fields
    decreases |gaps|
  {
    hide CutString, SkipSeps;
    if |gaps| == 0 {
      CutLast(fields[0]);
    } else {
      var rest := Joined(fields[1..], gaps[1..]);
      var more := Separators(gaps[0] - 1) + rest;
      assert fields[0] in fields && fields[1] in fields;
      assert Joined(fields, gaps) == fields[0] + [SEP] + more;
      assert |gaps| > 1 ==> rest[0] == fields[1][0];
      SkipsAll(gaps[0] - 1, rest);
      CutFirst(fields[0], more);
      forall i | 1 <= i < |gaps| - 1 ensures fields[1..][i] != "" {
        assert fields[i + 1] != "";
      }
      CutFields(fields[1..], gaps[1..]);
    }
  }

  /** Lines and a last one that is perhaps not ended: what reading line by line gives. */
  function Ending(ls: seq<string>, last: string): string {
    if |ls| == 0 then last else ls[0] + "\n" + Ending(ls[1..], last)
  }

  lemma {:induction false} LinesAre(ls: seq<string>, last: string)
    requires (forall l :: l in ls ==> '\n' !in l) && '\n' !in last
    ensures Lines(Ending(ls, last)) == ls + if last == "" then [] else [last]
  {
    hide Lines;
    if |ls| == 0 {
      LastLine(last);
    } else {
      assert ls[0] in ls;
      assert Ending(ls, last) == ls[0] + ['\n'] + Ending(ls[1..], last);
      FirstLine(ls[0], Ending(ls[1..], last));
      LinesAre(ls[1..], last);
    }
  }

  lemma LastLine(last: string)
    requires '\n' !in last
    ensures Lines(last) == if last == "" then [] else [last]
  {
    NotThere(last, '\n');
    assert last[..|last|] == last;
  }
}
