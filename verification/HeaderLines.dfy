/** What the header lines of a part mean: the expression the parser matches them with, written out piece by piece. */
module HeaderLines {
  import opened Texts
  import opened Multipart

  /** The same text but for the case of letters. */
  predicate SameText(s: string, t: string) {
    |s| == |t| && forall i :: 0 <= i < |s| ==> SameLetter(s[i], t[i])
  }

  predicate White(c: char) { c == ' ' || 9 <= c as int <= 13 }

  predicate AllWhite(s: string) { forall i :: 0 <= i < |s| ==> White(s[i]) }

  predicate OneLine(s: string) { forall i :: 0 <= i < |s| ==> s[i] as int != 10 && s[i] as int != 13 }

  // ----- the pieces -----

  lemma {:induction false} SkipsTo(s: string) returns (n: nat)
    ensures n <= |s| && AllWhite(s[..n]) && SkipSpace(s) == s[n..] && (n < |s| ==> !White(s[n]))
  {
    n := 0;
    if |s| > 0 && White(s[0]) {
      var m := SkipsTo(s[1..]);
      n := m + 1;
      assert s[..n] == [s[0]] + s[1..][..m];
    }
  }

  lemma {:induction false} SkipsWhite(w: string, t: string)
    requires AllWhite(w) && (t != "" ==> !White(t[0]))
    ensures SkipSpace(w + t) == t
  {
    if w == "" {
      assert w + t == t;
    } else {
      assert (w + t)[1..] == w[1..] + t;
      assert White(w[0]);
      SkipsWhite(w[1..], t);
    }
  }

  lemma WhiteIfSpace(s: string)
    requires AllSpace(s)
    ensures AllWhite(s)
  {
    var n := SkipsTo(s);
    assert s[..n] == s;
  }

  lemma AllSpaceIs(s: string)
    ensures AllSpace(s) <==> AllWhite(s)
  {
    if AllSpace(s) {
      WhiteIfSpace(s);
    }
    if AllWhite(s) {
      SkipsWhite(s, "");
      assert s + "" == s;
    }
  }

  lemma StartsIs(s: string, p: string)
    ensures StartsWith(s, p) <==> |p| <= |s| && SameText(s[..|p|], p)
  {
    StartsWithIs(s, p);
  }

  /** What may follow the quoted name: `(?:;\s*filename="(.*?)")?\s*$`. */
  ghost predicate TailFits(t: string, filename: string) {
    (AllWhite(t) && filename == "") || exists a, b, c :: NamesFile(t, filename, a, b, c)
  }

  predicate NamesFile(t: string, filename: string, a: string, b: string, c: string) {
    && t == ";" + (a + (b + (filename + "\"" + c)))
    && AllWhite(a) && SameText(b, "filename=\"") && OneLine(filename) && AllWhite(c)
  }

  /** A quote after one line of text, and nothing but white space behind it. */
  predicate ClosesAt(s: string, k: nat) { k < |s| && s[k] == '"' && AllWhite(s[k + 1..]) && OneLine(s[..k]) }

  lemma WhiteBehind(s: string, j: nat, k: nat)
    requires ClosesAt(s, j) && j < k < |s|
    ensures White(s[k])
  {
    assert s[j + 1..][k - j - 1] == s[k];
  }

  lemma ClosesOnce(s: string, j: nat, k: nat)
    requires ClosesAt(s, j) && ClosesAt(s, k)
    ensures j == k
  {
    if j < k {
      WhiteBehind(s, j, k);
    } else if k < j {
      WhiteBehind(s, k, j);
    }
  }

  lemma {:induction false} LazyFileExactly(s: string, i: nat)
    requires i <= |s| && OneLine(s[..i])
    ensures LazyFile(s, i).Match? ==>
      LazyFile(s, i).name == "" && ClosesAt(s, |LazyFile(s, i).filename|) &&
      LazyFile(s, i).filename == s[..|LazyFile(s, i).filename|]
    ensures forall k: nat :: i <= k && ClosesAt(s, k) ==> LazyFile(s, i) == Match("", s[..k])
    decreases |s| - i
  {
    if i < |s| {
      AllSpaceIs(s[i + 1..]);
      if !ClosesAt(s, i) && s[i] !in "\r\n" {
        assert OneLine(s[..i + 1]);
        LazyFileExactly(s, i + 1);
      }
      forall k: nat | i <= k && ClosesAt(s, k) ensures LazyFile(s, i) == Match("", s[..k]) {
        if ClosesAt(s, i) {
          ClosesOnce(s, i, k);
        } else {
          assert s[..k][i] == s[i];
        }
      }
    }
  }

  lemma TailOfFile(t: string, filename: string, a: string, b: string, c: string)
    requires NamesFile(t, filename, a, b, c)
    ensures Tail(t) == Match("", filename)
  {
    hide LazyFile, StartsWith;
    var q := filename + "\"" + c;
    assert t[1..] == a + (b + q);
    FilenameBegins(b);
    assert (b + q)[0] == b[0];
    SkipsWhite(a, b + q);
    assert (b + q)[..|b|] == b && (b + q)[|b|..] == q;
    StartsIs(b + q, FILENAME);
    assert q[..|filename|] == filename && q[|filename| + 1..] == c;
    assert ClosesAt(q, |filename|);
    LazyFileExactly(q, 0);
  }

  lemma FilenameBegins(b: string)
    requires SameText(b, "filename=\"")
    ensures |b| == |FILENAME| && !White(b[0]) && SameText(b, FILENAME)
  {
    assert SameLetter(b[0], 'f');
  }

  lemma TailUnfolds(t: string)
    requires |t| > 0 && t[0] == ';' && Tail(t).Match?
    ensures var u := SkipSpace(t[1..]); StartsWith(u, FILENAME) && Tail(t) == LazyFile(u[|FILENAME|..], 0)
  {
    hide LazyFile, StartsWith, AllSpace, SkipSpace;
    AllSpaceIs(t);
    SemicolonIsNotWhite(t);
  }

  lemma TailHasFile(t: string)
    requires |t| > 0 && t[0] == ';' && Tail(t).Match?
    ensures Tail(t).name == "" && TailFits(t, Tail(t).filename)
  {
    hide LazyFile, StartsWith, AllSpace, SameText, AllWhite, OneLine, Tail, SkipSpace;
    TailUnfolds(t);
    var n := SkipsTo(t[1..]);
    var u := t[1..][n..];
    StartsIs(u, FILENAME);
    var q := u[|FILENAME|..];
    LazyFileExactly(q, 0) by { NoLine(q); }
    var f := LazyFile(q, 0).filename;
    FileNamed(t, n, q, f);
  }

  lemma FileNamed(t: string, n: nat, q: string, f: string)
    requires |t| > 0 && t[0] == ';' && n + |FILENAME| <= |t| - 1 && q == t[1..][n..][|FILENAME|..]
    requires AllWhite(t[1..][..n]) && SameText(t[1..][n..][..|FILENAME|], FILENAME)
    requires ClosesAt(q, |f|) && f == q[..|f|]
    ensures TailFits(t, f)
  {
    hide SameText, AllWhite;
    var a, b, c := t[1..][..n], t[1..][n..][..|FILENAME|], q[|f| + 1..];
    assert q == f + "\"" + c;
    assert t == ";" + (a + (b + (f + "\"" + c)));
    assert NamesFile(t, f, a, b, c);
  }

  lemma NoLine(s: string)
    ensures OneLine(s[..0])
  {
  }

  lemma SemicolonIsNotWhite(t: string)
    requires |t| > 0 && t[0] == ';'
    ensures !AllWhite(t)
  {
    assert !White(t[0]);
  }

  lemma OnlyWhite(t: string)
    requires t == "" || t[0] != ';'
    ensures Tail(t) == if AllWhite(t) then Match("", "") else NoMatch
  {
    StartsIs("", FILENAME);
    AllSpaceIs(t);
  }

  /** The tail is matched exactly by what may follow the name, and then its filename is the only one. */
  lemma TailExactly(t: string)
    ensures Tail(t).Match? ==> Tail(t).name == "" && TailFits(t, Tail(t).filename)
    ensures forall f :: TailFits(t, f) ==> Tail(t) == Match("", f)
  {
    hide Tail;
    if |t| > 0 && t[0] == ';' {
      SemicolonIsNotWhite(t);
      if Tail(t).Match? {
        TailHasFile(t);
      }
      forall f | TailFits(t, f) ensures Tail(t) == Match("", f) {
        var a, b, c :| NamesFile(t, f, a, b, c);
        TailOfFile(t, f, a, b, c);
      }
    } else {
      OnlyWhite(t);
    }
  }

  // ----- the whole line -----

  /** The rest of the line from the name on. */
  ghost predicate NameFits(d: string, name: string, filename: string) {
    exists t :: d == name + "\"" + t && OneLine(name) && TailFits(t, filename)
  }

  lemma {:induction false} LazyNameExactly(d: string, i: nat)
    requires i <= |d| && OneLine(d[..i])
    ensures LazyName(d, i).Match? ==>
      i <= |LazyName(d, i).name| && NameFits(d, LazyName(d, i).name, LazyName(d, i).filename)
    ensures forall n, f :: NameFits(d, n, f) && |n| >= i ==> LazyName(d, i).Match? && |LazyName(d, i).name| <= |n|
    decreases |d| - i
  {
    hide Tail, TailFits;
    if i < |d| {
      var t := d[i + 1..];
      TailExactly(t);
      if d[i] == '"' && Tail(t).Match? {
        assert d == d[..i] + "\"" + t;
        assert NameFits(d, d[..i], Tail(t).filename);
      } else {
        if d[i] !in "\r\n" {
          assert OneLine(d[..i + 1]);
          LazyNameExactly(d, i + 1);
        }
        forall n, f | NameFits(d, n, f) && |n| >= i ensures LazyName(d, i).Match? && |LazyName(d, i).name| <= |n| {
          NotHere(d, i, n, f);
        }
      }
    } else {
      forall n, f | NameFits(d, n, f) ensures |n| < i {
        var t :| d == n + "\"" + t && OneLine(n) && TailFits(t, f);
      }
    }
  }

  lemma HereIs(d: string, i: nat, n: string, f: string)
    requires NameFits(d, n, f) && |n| == i
    ensures i < |d| && d[i] == '"' && Tail(d[i + 1..]).Match?
  {
    hide Tail, TailFits;
    var t :| d == n + "\"" + t && OneLine(n) && TailFits(t, f);
    TailExactly(t);
    assert d[i + 1..] == t;
  }

  lemma NotHere(d: string, i: nat, n: string, f: string)
    requires i < |d| && NameFits(d, n, f) && |n| >= i && !(d[i] == '"' && Tail(d[i + 1..]).Match?)
    ensures |n| > i && d[i] !in "\r\n"
  {
    hide Tail, TailFits;
    if |n| == i {
      HereIs(d, i, n, f);
    } else {
      var t :| d == n + "\"" + t && OneLine(n) && TailFits(t, f);
      assert n[i] == d[i];
    }
  }

  /** A Content-Disposition line of a form field: names in any case of letters, white space where the expression
      allows it, a name and perhaps a filename, both on one line. */
  ghost predicate DispositionFits(s: string, name: string, filename: string) {
    exists a, v, b, w, c, d :: Spelled(s, a, v, b, w, c, d) && NameFits(d, name, filename)
  }

  predicate Spelled(s: string, a: string, v: string, b: string, w: string, c: string, d: string) {
    && s == a + (v + (b + (w + (c + d))))
    && SameText(a, "content-disposition:") && AllWhite(v) && SameText(b, "form-data;") && AllWhite(w)
    && SameText(c, "name=\"")
  }

  lemma SameTextBegins(b: string, t: string)
    requires SameText(b, t) && |t| > 0 && (t[0] == 'f' || t[0] == 'n')
    ensures |b| == |t| && !White(b[0])
  {
    assert SameLetter(b[0], t[0]);
  }

  lemma SameTextAs(s: string, t: string, u: string)
    requires SameText(t, u)
    ensures SameText(s, t) <==> SameText(s, u)
  {
    if |s| == |t| {
      forall i | 0 <= i < |s| ensures SameLetter(s[i], t[i]) <==> SameLetter(s[i], u[i]) {
        assert SameLetter(t[i], u[i]);
      }
    }
  }

  lemma SpelledIs(s: string, a: string, v: string, b: string, w: string, c: string, d: string)
    requires Spelled(s, a, v, b, w, c, d)
    ensures Disposition(s) == LazyName(d, 0)
  {
    hide LazyName, StartsWith, SkipSpace, SameText, AllWhite;
    var q := c + d;
    var p := b + (w + q);
    SameTextBegins(b, "form-data;");
    SameTextBegins(c, "name=\"");
    SameTextAs(a, "content-disposition:", DISPOSITION) by { Spellings(); }
    LengthsAre(a);
    assert s[..|a|] == a && s[|a|..] == v + p;
    StartsIs(s, DISPOSITION);
    SkipsWhite(v, p);
    assert p[..|b|] == b && p[|b|..] == w + q;
    StartsIs(p, FORM_DATA);
    SkipsWhite(w, q);
    assert q[..|c|] == c && q[|c|..] == d;
    StartsIs(q, NAME);
  }

  lemma Spellings()
    ensures SameText("content-disposition:", DISPOSITION)
  {
  }

  lemma LengthsAre(a: string)
    requires SameText(a, "content-disposition:")
    ensures |a| == |DISPOSITION|
  {
  }

  /** The expression matches exactly these lines; the name it finds is the shortest there is. */
  lemma DispositionExactly(s: string)
    ensures Disposition(s).Match? ==> DispositionFits(s, Disposition(s).name, Disposition(s).filename)
    ensures forall n, f :: DispositionFits(s, n, f) ==> Disposition(s).Match? && |Disposition(s).name| <= |n|
  {
    hide LazyName, Disposition, NameFits, Spelled;
    if Disposition(s).Match? {
      var a, v, b, w, c, d := Spells(s);
      LazyNameExactly(d, 0) by { NoLine(d); }
      assert NameFits(d, Disposition(s).name, Disposition(s).filename);
    }
    forall n, f | DispositionFits(s, n, f) ensures Disposition(s).Match? && |Disposition(s).name| <= |n| {
      var a, v, b, w, c, d :| Spelled(s, a, v, b, w, c, d) && NameFits(d, n, f);
      SpelledIs(s, a, v, b, w, c, d);
      LazyNameExactly(d, 0) by { NoLine(d); }
    }
  }

  lemma Spells(s: string) returns (a: string, v: string, b: string, w: string, c: string, d: string)
    requires Disposition(s).Match?
    ensures Spelled(s, a, v, b, w, c, d) && Disposition(s) == LazyName(d, 0)
  {
    hide LazyName, StartsWith, SkipSpace, SameText, AllWhite;
    StartsIs(s, DISPOSITION);
    a := s[..|DISPOSITION|];
    SameTextAs(a, "content-disposition:", DISPOSITION) by { Spellings(); }
    var p := s[|DISPOSITION|..];
    var n := SkipsTo(p);
    v := p[..n];
    var q := p[n..];
    StartsIs(q, FORM_DATA);
    b := q[..|FORM_DATA|];
    var r := q[|FORM_DATA|..];
    var m := SkipsTo(r);
    w := r[..m];
    var u := r[m..];
    StartsIs(u, NAME);
    c, d := u[..|NAME|], u[|NAME|..];
    assert u == c + d && r == w + u && q == b + r && p == v + q && s == a + p;
  }

  // ----- what a line does -----

  /** The line begins with this header name, in any case of letters. */
  predicate Begins(line: string, name: string) { |name| <= |line| && SameText(line[..|name|], name) }

  /** A content type is what stands behind the name, without spaces and tabs at the ends. */
  lemma TypeLine(file: Item, line: string)
    requires Begins(line, "content-type:")
    ensures TakeHeader(file, line) == file.(contentType := Trim(line[13..]))
  {
    StartsIs(line, CONTENT_TYPE);
  }

  /** A line of a form field sets name and filename. */
  lemma FieldLine(file: Item, line: string, name: string, filename: string)
    requires DispositionFits(line, name, filename) && OnlyName(line, name, filename)
    ensures TakeHeader(file, line) == file.(name := name, filename := filename)
  {
    hide Disposition;
    DispositionExactly(line);
    NoType(line, name, filename);
  }

  /** There is no other reading of the line with a name that is not longer. */
  ghost predicate OnlyName(line: string, name: string, filename: string) {
    forall n, f :: DispositionFits(line, n, f) && |n| <= |name| ==> n == name && f == filename
  }

  lemma NoType(line: string, name: string, filename: string)
    requires DispositionFits(line, name, filename)
    ensures !StartsWith(line, CONTENT_TYPE)
  {
    hide NameFits;
    var a, v, b, w, c, d :| Spelled(line, a, v, b, w, c, d) && NameFits(d, name, filename);
    StartsWithIs(line, CONTENT_TYPE);
    assert line[8] == a[8] && SameLetter(a[8], 'd') && CONTENT_TYPE[8] == 't';
  }

  /** Any other line leaves the file information as it is. */
  lemma OtherLine(file: Item, line: string)
    requires !Begins(line, "content-type:") && !Begins(line, "content-disposition:")
    ensures TakeHeader(file, line) == file
  {
    hide SameText;
    StartsIs(line, CONTENT_TYPE);
    StartsIs(line, DISPOSITION);
    if |line| >= |DISPOSITION| {
      SameTextAs(line[..|DISPOSITION|], "content-disposition:", DISPOSITION) by { Spellings(); }
    }
  }

  /** So does a Content-Disposition line that is not that of a form field. */
  lemma NoFieldLine(file: Item, line: string)
    requires !Begins(line, "content-type:") && forall n, f :: !DispositionFits(line, n, f)
    ensures TakeHeader(file, line) == file
  {
    hide Disposition;
    StartsIs(line, CONTENT_TYPE);
    DispositionExactly(line);
  }
}
