/** The weighted inverted index and the searcher on top of it. */
module Search {
  import opened Texts
  import R = Records

  datatype DocInfo = DocInfo(title: string, content: string, url: string, docId: nat)

  datatype InvertElem = InvertElem(docId: nat, word: string, weight: nat)

  const X: nat := 10
  const Y: nat := 1

  /** `boost::to_lower` */
  function ToLower(s: string): string {
    seq(|s|, i requires 0 <= i < |s| => Lower(s[i]))
  }

  function AllLower(words: seq<string>): seq<string> {
    seq(|words|, i requires 0 <= i < |words| => ToLower(words[i]))
  }

  function Without(words: seq<string>, stopWords: set<string>): seq<string> {
    if |words| == 0 then []
    else Without(words[..|words| - 1], stopWords) + if words[|words| - 1] in stopWords then [] else [words[|words| - 1]]
  }

  /** Letters A to Z become small, and nothing else changes. */
  lemma ToLowerIs(s: string)
    ensures |ToLower(s)| == |s|
    ensures forall i :: 0 <= i < |s| ==>
      ToLower(s)[i] as int == s[i] as int + if 65 <= s[i] as int <= 90 then 32 else 0
  {
  }

  /** Two words that differ at most in the case of letters. */
  predicate SameWord(a: string, b: string) {
    |a| == |b| && forall i :: 0 <= i < |a| ==> SameLetter(a[i], b[i])
  }

  lemma SameWordExactly(a: string, b: string)
    ensures ToLower(a) == ToLower(b) <==> SameWord(a, b)
  {
    hide Lower, SameLetter;
    if |a| == |b| {
      forall i | 0 <= i < |a| ensures ToLower(a)[i] == ToLower(b)[i] <==> SameLetter(a[i], b[i]) {
        LowerSame(a[i], b[i]);
      }
    }
  }

  predicate SameWords(a: seq<string>, b: seq<string>) {
    |a| == |b| && forall i :: 0 <= i < |a| ==> SameWord(a[i], b[i])
  }

  lemma SameWordsExactly(a: seq<string>, b: seq<string>)
    ensures AllLower(a) == AllLower(b) <==> SameWords(a, b)
  {
    hide ToLower, SameWord;
    if |a| == |b| {
      forall i | 0 <= i < |a| ensures AllLower(a)[i] == AllLower(b)[i] <==> SameWord(a[i], b[i]) {
        SameWordExactly(a[i], b[i]);
      }
    }
  }

  /** Every word that is no stop word is kept as often as it was there, and no stop word is kept. */
  lemma {:induction false} WithoutIs(words: seq<string>, stopWords: set<string>, w: string)
    ensures multiset(Without(words, stopWords))[w] == if w in stopWords then 0 else multiset(words)[w]
  {
    if |words| > 0 {
      var n := |words| - 1;
      assert words == words[..n] + [words[n]];
      WithoutIs(words[..n], stopWords, w);
    }
  }

  /** The words that are kept, in the order they had: `at` says where they were. */
  lemma {:induction false} WithoutInOrder(words: seq<string>, stopWords: set<string>) returns (at: seq<nat>)
    ensures |at| == |Without(words, stopWords)| && forall k, m :: 0 <= k < m < |at| ==> at[k] < at[m]
    ensures forall k :: 0 <= k < |at| ==> at[k] < |words| && words[at[k]] == Without(words, stopWords)[k]
    ensures forall i :: 0 <= i < |words| ==> (words[i] !in stopWords <==> i in at)
  {
    at := [];
    if |words| > 0 {
      var n := |words| - 1;
      at := WithoutInOrder(words[..n], stopWords);
      if words[n] !in stopWords {
        at := at + [n];
      }
    }
  }

  /** A stop word is taken out only in the case in which it is listed: the letters become small later. */
  lemma StopWordInOtherCase(a: string, b: string)
    requires SameWord(a, b) && a != b
    ensures Without([a, b], {a}) == [b] && ToLower(b) == ToLower(a)
  {
    SameWordExactly(a, b);
    assert [a, b][..1] == [a] && [a][..0] == [];
    assert Without([a], {a}) == [];
  }

  /** Cutting a text into words; how the words are found is left open. */
  class Cutter {
    const cut: string -> seq<string>
    const stopWords: set<string>

    constructor (cut: string -> seq<string>, stopWords: set<string>)
      ensures this.cut == cut && this.stopWords == stopWords
    {
      this.cut := cut;
      this.stopWords := stopWords;
    }

    /** `CutStringForSearch`: stop words are erased while walking along the vector. */
    method CutStringForSearch(str: string) returns (out: seq<string>)
      ensures out == Without(cut(str), stopWords)
    {
      out := cut(str);
      ghost var all := out;
      var i := 0;
      ghost var k := 0;
      while i < |out|
        invariant i <= |out| && k <= |all| && out[..i] == Without(all[..k], stopWords) && out[i..] == all[k..]
        decreases |all| - k
      {
        assert all[..k + 1][..k] == all[..k] && out[i] == all[k];
        if out[i] in stopWords {
          out := out[..i] + out[i + 1..];
        } else {
          i := i + 1;
        }
        k := k + 1;
      }
      assert all[..k] == all && out[..i] == out;
    }

    /** The words of a text, as the index and the searcher know them. */
    ghost function Words(str: string): seq<string> { AllLower(Without(cut(str), stopWords)) }

    // ----- what a search means: a look at every word of every document -----

    ghost function TitleCount(doc: DocInfo, w: string): nat { multiset(Words(doc.title))[w] }

    ghost function ContentCount(doc: DocInfo, w: string): nat { multiset(Words(doc.content))[w] }

    ghost function Weight(doc: DocInfo, w: string): nat { X * TitleCount(doc, w) + Y * ContentCount(doc, w) }

    ghost function Score(doc: DocInfo, query: seq<string>): nat {
      if |query| == 0 then 0 else Score(doc, query[..|query| - 1]) + Weight(doc, query[|query| - 1])
    }

    /** The words of the query that the document has, in the order of the query. */
    ghost function Hits(doc: DocInfo, query: seq<string>): seq<string> {
      if |query| == 0 then []
      else Hits(doc, query[..|query| - 1]) + if Weight(doc, query[|query| - 1]) > 0 then [query[|query| - 1]] else []
    }

    /** The score is positive exactly for documents that have a word of the query. */
    lemma {:induction false} PositiveScore(doc: DocInfo, query: seq<string>)
      ensures Score(doc, query) > 0 <==> exists w :: w in query && (w in Words(doc.title) || w in Words(doc.content))
      ensures Score(doc, query) > 0 <==> |Hits(doc, query)| > 0
    {
      if |query| > 0 {
        var rest, last := query[..|query| - 1], query[|query| - 1];
        PositiveScore(doc, rest);
        assert query == rest + [last];
        assert Weight(doc, last) > 0 <==> last in Words(doc.title) || last in Words(doc.content);
        assert forall w :: w in query <==> w in rest || w == last;
      }
    }

    /** Where word w is among the words. */
    ghost function Places(words: seq<string>, w: string): set<nat> { set i: nat | i < |words| && words[i] == w }

    /** A word weighs ten for each place in the title and one for each place in the content. */
    lemma WeightIs(doc: DocInfo, w: string)
      ensures Weight(doc, w) == 10 * |Places(Words(doc.title), w)| + |Places(Words(doc.content), w)|
    {
      hide Words;
      CountPlaces(Words(doc.title), w);
      CountPlaces(Words(doc.content), w);
    }

    lemma {:induction false} CountPlaces(words: seq<string>, w: string)
      ensures multiset(words)[w] == |Places(words, w)|
    {
      if |words| > 0 {
        var n := |words| - 1;
        assert words == words[..n] + [words[n]];
        CountPlaces(words[..n], w);
        assert Places(words, w) == Places(words[..n], w) + if words[n] == w then {n} else {};
      } else {
        assert Places(words, w) == {};
      }
    }

    /** The score adds up the weights of the words of the query, each as often as it is there. */
    lemma {:induction false} ScoreAdds(doc: DocInfo, a: seq<string>, b: seq<string>)
      ensures Score(doc, a + b) == Score(doc, a) + Score(doc, b)
      ensures |a| == 1 ==> Score(doc, a) == Weight(doc, a[0])
      ensures Hits(doc, a + b) == Hits(doc, a) + Hits(doc, b)
      ensures |a| == 1 ==> Hits(doc, a) == if Weight(doc, a[0]) > 0 then a else []
      decreases |b|
    {
      if |a| == 1 {
        assert a[..0] == [] && a == [a[0]];
      }
      if |b| == 0 {
        assert a + b == a;
      } else {
        var n := |b| - 1;
        assert (a + b)[..|a| + n] == a + b[..n];
        ScoreAdds(doc, a, b[..n]);
      }
    }

    /** Two queries whose words differ at most in case find the same, with the same scores. */
    lemma SameScores(doc: DocInfo, q: string, r: string)
      requires SameWords(Without(cut(q), stopWords), Without(cut(r), stopWords))
      ensures Words(q) == Words(r) && Score(doc, Words(q)) == Score(doc, Words(r))
    {
      SameWordsExactly(Without(cut(q), stopWords), Without(cut(r), stopWords));
    }

    /** A word of the query finds a document that has it, in whatever case, in its title or its content. */
    lemma FoundInAnyCase(doc: DocInfo, w: string, v: string)
      requires SameWord(w, v) && w !in stopWords && (w in cut(doc.title) || w in cut(doc.content))
      ensures Weight(doc, ToLower(v)) >= if w in cut(doc.title) then 10 else 1
    {
      hide Without, ToLower;
      SameWordExactly(w, v);
      if w in cut(doc.title) {
        AmongWords(doc.title, w);
      } else {
        AmongWords(doc.content, w);
      }
    }

    lemma AmongWords(str: string, w: string)
      requires w in cut(str) && w !in stopWords
      ensures ToLower(w) in Words(str)
    {
      hide Without, ToLower;
      WithoutIs(cut(str), stopWords, w);
      var kept := Without(cut(str), stopWords);
      assert w in multiset(kept);
      var k :| 0 <= k < |kept| && kept[k] == w;
      assert AllLower(kept)[k] == ToLower(w);
    }

    // ----- the inverted lists -----

    /** The list of word w over the given documents. */
    ghost function Postings(docs: seq<DocInfo>, w: string): seq<InvertElem> {
      if |docs| == 0 then []
      else
        var n := |docs| - 1;
        Postings(docs[..n], w) + if Weight(docs[n], w) > 0 then [InvertElem(n, w, Weight(docs[n], w))] else []
    }
  }

  // ----- the index -----

  datatype WordCnt = WordCnt(titleCnt: nat, contentCnt: nat)

  const NO_COUNT := WordCnt(0, 0)

  /** The table of word counts holds these numbers of title and content words, and nothing else. */
  ghost predicate Tallied(table: map<string, WordCnt>, title: multiset<string>, content: multiset<string>) {
    forall w :: (w in table <==> title[w] + content[w] > 0) &&
      (w in table ==> table[w] == WordCnt(title[w], content[w]))
  }

  function CountAt(table: map<string, WordCnt>, w: string): WordCnt {
    if w in table then table[w] else NO_COUNT
  }

  lemma TitleOneMore(table: map<string, WordCnt>, done: seq<string>, s: string, content: multiset<string>)
    requires Tallied(table, multiset(done), content)
    ensures Tallied(table[s := WordCnt(CountAt(table, s).titleCnt + 1, CountAt(table, s).contentCnt)],
      multiset(done + [s]), content)
  {
    assert multiset(done + [s]) == multiset(done) + multiset{s};
  }

  lemma ContentOneMore(table: map<string, WordCnt>, done: seq<string>, s: string, title: multiset<string>)
    requires Tallied(table, title, multiset(done))
    ensures Tallied(table[s := WordCnt(CountAt(table, s).titleCnt, CountAt(table, s).contentCnt + 1)], title,
      multiset(done + [s]))
  {
    assert multiset(done + [s]) == multiset(done) + multiset{s};
  }

  lemma NothingTallied()
    ensures Tallied(map[], multiset([]), multiset{})
  {
  }

  /** `word_weight[s].title_cnt++` for every word, in lower case. */
  method CountTitle(words: seq<string>) returns (table: map<string, WordCnt>)
    ensures Tallied(table, multiset(AllLower(words)), multiset{})
  {
    hide Tallied, ToLower;
    table := map[];
    ghost var done := [];
    NothingTallied();
    for i := 0 to |words|
      invariant done == AllLower(words)[..i] && Tallied(table, multiset(done), multiset{})
    {
      var s := ToLower(words[i]);
      TitleOneMore(table, done, s, multiset{});
      table := table[s := WordCnt(CountAt(table, s).titleCnt + 1, CountAt(table, s).contentCnt)];
      assert AllLower(words)[..i + 1] == done + [s];
      done := done + [s];
    }
    assert done == AllLower(words);
  }

  /** The same for the words of the content, on top of the title. */
  method CountContent(words: seq<string>, before: map<string, WordCnt>, ghost title: multiset<string>)
    returns (table: map<string, WordCnt>)
    requires Tallied(before, title, multiset{})
    ensures Tallied(table, title, multiset(AllLower(words)))
  {
    hide Tallied, ToLower;
    table := before;
    ghost var done := [];
    for i := 0 to |words|
      invariant done == AllLower(words)[..i] && Tallied(table, title, multiset(done))
    {
      var s := ToLower(words[i]);
      ContentOneMore(table, done, s, title);
      table := table[s := WordCnt(CountAt(table, s).titleCnt, CountAt(table, s).contentCnt + 1)];
      assert AllLower(words)[..i + 1] == done + [s];
      done := done + [s];
    }
    assert done == AllLower(words);
  }

  /** What a line of the file makes of the documents read so far. */
  function WithLine(docs: seq<DocInfo>, line: string): seq<DocInfo> {
    var results := R.CutString(line);
    if |results| != 3 then docs else docs + [DocInfo(results[0], results[1], results[2], |docs|)]
  }

  /** A line with exactly three fields is a document, whatever else separates them; any other line is skipped. */
  lemma LineTaken(docs: seq<DocInfo>, fields: seq<string>, gaps: seq<nat>)
    requires R.Apart(fields, gaps)
    ensures WithLine(docs, R.Joined(fields, gaps)) ==
      if |fields| == 3 then docs + [DocInfo(fields[0], fields[1], fields[2], |docs|)] else docs
  {
    R.CutFields(fields, gaps);
  }

  function DocsOf(docs: seq<DocInfo>, lines: seq<string>): seq<DocInfo> {
    if |lines| == 0 then docs else WithLine(DocsOf(docs, lines[..|lines| - 1]), lines[|lines| - 1])
  }

  datatype Found = OutOfRange | PastTheEnd | Doc(doc: DocInfo)

  function ListAt(table: map<string, seq<InvertElem>>, w: string): seq<InvertElem> {
    if w in table then table[w] else []
  }

  /** The table is what a scan of all documents gives, word by word; words without documents are not in it. */
  ghost predicate Agree(cutter: Cutter, table: map<string, seq<InvertElem>>, docs: seq<DocInfo>) {
    forall w :: ListAt(table, w) == cutter.Postings(docs, w) && (w in table ==> table[w] != [])
  }

  function ElemOf(id: nat, w: string, cnt: WordCnt): InvertElem {
    InvertElem(id, w, X * cnt.titleCnt + Y * cnt.contentCnt)
  }

  /** What a document with these counts adds to the list of w, while `todo` is still to be done. */
  function Extra(table: map<string, WordCnt>, todo: set<string>, id: nat, w: string): seq<InvertElem> {
    if w in table && w !in todo then [ElemOf(id, w, table[w])] else []
  }

  ghost predicate Added(before: map<string, seq<InvertElem>>, after: map<string, seq<InvertElem>>,
                        table: map<string, WordCnt>, todo: set<string>, id: nat) {
    forall w :: ListAt(after, w) == ListAt(before, w) + Extra(table, todo, id, w)
      && (w in after ==> w in before || Extra(table, todo, id, w) != [])
  }

  lemma NothingAdded(before: map<string, seq<InvertElem>>, table: map<string, WordCnt>, id: nat)
    ensures Added(before, before, table, table.Keys, id)
  {
  }

  lemma OneAdded(before: map<string, seq<InvertElem>>, after: map<string, seq<InvertElem>>,
                 table: map<string, WordCnt>, todo: set<string>, id: nat, word: string)
    requires Added(before, after, table, todo, id) && word in todo && word in table
    ensures Added(before, after[word := ListAt(after, word) + [ElemOf(id, word, table[word])]], table, todo - {word},
      id)
  {
    hide ElemOf;
    var n := after[word := ListAt(after, word) + [ElemOf(id, word, table[word])]];
    forall w ensures ListAt(n, w) == ListAt(before, w) + Extra(table, todo - {word}, id, w)
      && (w in n ==> w in before || Extra(table, todo - {word}, id, w) != [])
    {
      assert ListAt(after, w) == ListAt(before, w) + Extra(table, todo, id, w);
      assert w == word ==> ListAt(before, w) + [] == ListAt(before, w);
    }
  }

  /** Counting one document's words and adding them keeps the index in agreement. */
  lemma AddedAgree(cutter: Cutter, before: map<string, seq<InvertElem>>, after: map<string, seq<InvertElem>>,
                   table: map<string, WordCnt>, docs: seq<DocInfo>)
    requires |docs| > 0
    requires var doc := docs[|docs| - 1];
      Tallied(table, multiset(cutter.Words(doc.title)), multiset(cutter.Words(doc.content)))
    requires Agree(cutter, before, docs[..|docs| - 1]) && Added(before, after, table, {}, |docs| - 1)
    ensures Agree(cutter, after, docs)
  {
    hide Cutter.Words, Cutter.Weight, Cutter.Postings, Tallied;
    var n := |docs| - 1;
    forall w ensures ListAt(after, w) == cutter.Postings(docs, w) && (w in after ==> after[w] != []) {
      assert ListAt(after, w) == ListAt(before, w) + Extra(table, {}, n, w);
      assert ListAt(before, w) == cutter.Postings(docs[..n], w);
      TalliedWeight(cutter, docs[n], table, w);
      LastPosting(cutter, docs, w);
    }
  }

  lemma TalliedWeight(cutter: Cutter, doc: DocInfo, table: map<string, WordCnt>, w: string)
    requires Tallied(table, multiset(cutter.Words(doc.title)), multiset(cutter.Words(doc.content)))
    ensures cutter.Weight(doc, w) > 0 <==> w in table
    ensures w in table ==> ElemOf(doc.docId, w, table[w]) == InvertElem(doc.docId, w, cutter.Weight(doc, w))
  {
    hide Cutter.Words;
  }

  lemma LastPosting(cutter: Cutter, docs: seq<DocInfo>, w: string)
    requires |docs| > 0
    ensures var n := |docs| - 1;
      cutter.Postings(docs, w) ==
        cutter.Postings(docs[..n], w) +
        if cutter.Weight(docs[n], w) > 0 then [InvertElem(n, w, cutter.Weight(docs[n], w))] else []
  {
  }

  class Index {
    const cutter: Cutter
    var forwardIndex: seq<DocInfo>
    var invertedIndex: map<string, seq<InvertElem>>

    /** The inverted index is what a scan of all documents gives, word by word. */
    ghost predicate Agrees()
      reads this
    {
      Agree(cutter, invertedIndex, forwardIndex)
    }

    ghost predicate Valid()
      reads this
    {
      Agrees() && forall i :: 0 <= i < |forwardIndex| ==> forwardIndex[i].docId == i
    }

    constructor (cutter: Cutter)
      ensures Valid() && this.cutter == cutter && forwardIndex == []
    {
      this.cutter := cutter;
      forwardIndex, invertedIndex := [], map[];
    }

    method BuildForwardIndex(line: string) returns (added: bool)
      modifies `forwardIndex
      ensures forwardIndex == WithLine(old(forwardIndex), line) && (added <==> |forwardIndex| > |old(forwardIndex)|)
    {
      var results := R.CutString(line);
      if |results| != 3 { return false; }
      forwardIndex := forwardIndex + [DocInfo(results[0], results[1], results[2], |forwardIndex|)];
      return true;
    }

    /** Add the words of one document, in whatever order the table of counts lists them. */
    method AddWords(table: map<string, WordCnt>, id: nat)
      modifies `invertedIndex
      ensures Added(old(invertedIndex), invertedIndex, table, {}, id)
    {
      hide Added;
      var todo := table.Keys;
      NothingAdded(invertedIndex, table, id);
      while todo != {}
        invariant todo <= table.Keys && Added(old(invertedIndex), invertedIndex, table, todo, id)
        decreases |todo|
      {
        var word :| word in todo;
        OneAdded(old(invertedIndex), invertedIndex, table, todo, id, word);
        todo := todo - {word};
        var invertedList := ListAt(invertedIndex, word) + [ElemOf(id, word, table[word])];
        invertedIndex := invertedIndex[word := invertedList];
      }
    }

    /** `BuildInvertedIndex` for the document added last. */
    method BuildInvertedIndex(doc: DocInfo)
      requires |forwardIndex| > 0 && doc == forwardIndex[|forwardIndex| - 1] && doc.docId == |forwardIndex| - 1
      requires Agree(cutter, invertedIndex, forwardIndex[..|forwardIndex| - 1])
      modifies `invertedIndex
      ensures Agrees()
    {
      hide Tallied, Added, Agree;
      var titleWords := cutter.CutStringForSearch(doc.title);
      var table := CountTitle(titleWords);
      var contentWords := cutter.CutStringForSearch(doc.content);
      table := CountContent(contentWords, table, multiset(AllLower(titleWords)));
      ghost var before := invertedIndex;
      AddWords(table, doc.docId);
      AddedAgree(cutter, before, invertedIndex, table, forwardIndex);
    }

    method BuildIndex(lines: seq<string>)
      requires Valid()
      modifies this
      ensures Valid() && forwardIndex == DocsOf(old(forwardIndex), lines)
    {
      for i := 0 to |lines|
        invariant Valid() && forwardIndex == DocsOf(old(forwardIndex), lines[..i])
      {
        assert lines[..i + 1][..i] == lines[..i];
        ghost var docs := forwardIndex;
        var added := BuildForwardIndex(lines[i]);
        if added {
          assert forwardIndex[..|forwardIndex| - 1] == docs;
          BuildInvertedIndex(forwardIndex[|forwardIndex| - 1]);
        }
      }
      assert lines[..|lines|] == lines;
    }

    /** The check lets the number of documents itself through. */
    function GetForwardIndex(id: nat): Found
      reads this
    {
      if id > |forwardIndex| then OutOfRange
      else if id == |forwardIndex| then PastTheEnd
      else Doc(forwardIndex[id])
    }

    /** Of all numbers exactly one passes the check without naming a document: the number of documents. */
    lemma OnePastTheEnd(id: nat)
      ensures !GetForwardIndex(id).OutOfRange? && (forall d :: d in forwardIndex ==> GetForwardIndex(id) != Doc(d)) <==>
              id == |forwardIndex|
    {
      if id < |forwardIndex| {
        assert forwardIndex[id] in forwardIndex;
      }
    }
  }

  // ----- searching -----

  datatype Print = Print(docId: nat, weight: nat, words: seq<string>)

  function PrintAt(print_: map<nat, Print>, d: nat): Print {
    if d in print_ then print_[d] else Print(d, 0, [])
  }

  function AddElem(print_: map<nat, Print>, e: InvertElem): map<nat, Print> {
    var item := PrintAt(print_, e.docId);
    print_[e.docId := Print(e.docId, item.weight + e.weight, item.words + [e.word])]
  }

  function AddAll(print_: map<nat, Print>, es: seq<InvertElem>): map<nat, Print> {
    if |es| == 0 then print_ else AddElem(AddAll(print_, es[..|es| - 1]), es[|es| - 1])
  }

  /** What the table of results holds for the first n documents and these query words. */
  ghost predicate Scored(cutter: Cutter, docs: seq<DocInfo>, query: seq<string>, print_: map<nat, Print>) {
    && (forall d :: d in print_ ==> d < |docs|)
    && forall d :: 0 <= d < |docs| ==> ScoredAt(cutter, docs[d], query, print_, d)
  }

  ghost predicate ScoredAt(cutter: Cutter, doc: DocInfo, query: seq<string>, print_: map<nat, Print>, d: nat) {
    && (d in print_ <==> cutter.Score(doc, query) > 0)
    && PrintAt(print_, d) == Print(d, cutter.Score(doc, query), cutter.Hits(doc, query))
  }

  /** The effect of one word on document d: if the document has the word it gains its weight, else nothing. */
  ghost predicate Gained(cutter: Cutter, docs: seq<DocInfo>, w: string, before: map<nat, Print>,
      after: map<nat, Print>, d: nat) {
    var (b, a) := (PrintAt(before, d), PrintAt(after, d));
    if d < |docs| && cutter.Weight(docs[d], w) > 0 then
      d in after && a == Print(d, b.weight + cutter.Weight(docs[d], w), b.words + [w])
    else
      (d in after <==> d in before) && a == b
  }

  lemma AddElemAt(q: map<nat, Print>, e: InvertElem, d: nat)
    ensures var n := AddElem(q, e);
      if d == e.docId then
        d in n && PrintAt(n, d) == Print(d, PrintAt(q, d).weight + e.weight, PrintAt(q, d).words + [e.word])
      else (d in n <==> d in q) && PrintAt(n, d) == PrintAt(q, d)
  {
  }

  lemma AddAllMore(print_: map<nat, Print>, es: seq<InvertElem>, e: InvertElem)
    ensures AddAll(print_, es + [e]) == AddElem(AddAll(print_, es), e)
  {
    assert (es + [e])[..|es|] == es;
  }

  /** Merging the list of one word, seen from document d. */
  lemma {:induction false} AddPostings(cutter: Cutter, docs: seq<DocInfo>, w: string, print_: map<nat, Print>, d: nat)
    ensures Gained(cutter, docs, w, print_, AddAll(print_, cutter.Postings(docs, w)), d)
  {
    hide Cutter.Weight, AddElem, PrintAt, Cutter.Postings, AddAll;
    if |docs| == 0 {
      NoPostings(cutter, print_, w);
    } else {
      var n := |docs| - 1;
      AddPostings(cutter, docs[..n], w, print_, d);
      var before := cutter.Postings(docs[..n], w);
      LastPosting(cutter, docs, w);
      if cutter.Weight(docs[n], w) > 0 {
        var e := InvertElem(n, w, cutter.Weight(docs[n], w));
        AddAllMore(print_, before, e);
        AddElemAt(AddAll(print_, before), e, d);
      } else {
        assert before + [] == before;
      }
    }
  }

  lemma NoPostings(cutter: Cutter, print_: map<nat, Print>, w: string)
    ensures AddAll(print_, cutter.Postings([], w)) == print_
  {
  }

  lemma OneMoreWord(cutter: Cutter, docs: seq<DocInfo>, query: seq<string>, w: string, print_: map<nat, Print>)
    requires Scored(cutter, docs, query, print_)
    ensures Scored(cutter, docs, query + [w], AddAll(print_, cutter.Postings(docs, w)))
  {
    hide Cutter.Weight, AddAll, Cutter.Postings, PrintAt;
    var q := AddAll(print_, cutter.Postings(docs, w));
    forall d | d in q ensures d < |docs| {
      AddPostings(cutter, docs, w, print_, d);
    }
    forall d | 0 <= d < |docs| ensures ScoredAt(cutter, docs[d], query + [w], q, d) {
      assert (query + [w])[..|query|] == query;
      assert ScoredAt(cutter, docs[d], query, print_, d);
      AddPostings(cutter, docs, w, print_, d);
    }
  }

  // ----- putting the results in order -----

  predicate Sorted(list: seq<Print>) {
    forall i, j :: 0 <= i < j < |list| ==> list[i].weight >= list[j].weight
  }

  lemma Inserted(sorted: seq<Print>, k: nat, x: Print)
    requires Sorted(sorted) && k <= |sorted|
    requires forall j :: 0 <= j < k ==> sorted[j].weight >= x.weight
    requires k < |sorted| ==> sorted[k].weight < x.weight
    ensures Sorted(sorted[..k] + [x] + sorted[k..])
    ensures multiset(sorted[..k] + [x] + sorted[k..]) == multiset(sorted) + multiset{x}
  {
    assert sorted == sorted[..k] + sorted[k..];
  }

  /** The results in some order, best first; which of two equally good ones comes first is left open. */
  method SortByWeight(list: seq<Print>) returns (sorted: seq<Print>)
    ensures Sorted(sorted) && multiset(sorted) == multiset(list)
  {
    hide Sorted;
    sorted := [];
    NothingSorted();
    for i := 0 to |list|
      invariant Sorted(sorted) && multiset(sorted) == multiset(list[..i])
    {
      var x, k := list[i], 0;
      while k < |sorted| && sorted[k].weight >= x.weight
        invariant k <= |sorted| && forall j :: 0 <= j < k ==> sorted[j].weight >= x.weight
      {
        k := k + 1;
      }
      assert list[..i + 1] == list[..i] + [x];
      Inserted(sorted, k, x);
      sorted := sorted[..k] + [x] + sorted[k..];
    }
    assert list[..|list|] == list;
  }

  lemma NothingSorted()
    ensures Sorted([])
  {
  }

  /** One result of a search, as far as it is not text cut out for display. */
  datatype Hit = Hit(title: string, url: string, docId: nat, weight: nat, firstWord: string)

  /** The results of a search, described by a look at every document. */
  ghost predicate Answers(cutter: Cutter, docs: seq<DocInfo>, query: seq<string>, root: seq<Hit>) {
    && (forall i, j :: 0 <= i < j < |root| ==> root[i].weight >= root[j].weight && root[i].docId != root[j].docId)
    && (forall i :: 0 <= i < |root| ==> IsHit(cutter, docs, query, root[i]))
    && (forall d :: 0 <= d < |docs| && cutter.Score(docs[d], query) > 0 ==>
         exists i :: 0 <= i < |root| && root[i].docId == d)
  }

  ghost predicate IsHit(cutter: Cutter, docs: seq<DocInfo>, query: seq<string>, h: Hit) {
    h.docId < |docs| && var doc := docs[h.docId];
    && h.title == doc.title && h.url == doc.url && h.weight == cutter.Score(doc, query) > 0
    && |cutter.Hits(doc, query)| > 0 && h.firstWord == cutter.Hits(doc, query)[0]
  }

  class Searcher {
    const index: Index
    const cutter: Cutter

    constructor (index: Index)
      ensures this.index == index && cutter == index.cutter
    {
      this.index := index;
      this.cutter := index.cutter;
    }

    /** Look up the words one after the other and merge what is found by document. */
    method Merge(words: seq<string>) returns (print_: map<nat, Print>)
      requires index.Valid() && cutter == index.cutter
      ensures Scored(cutter, index.forwardIndex, AllLower(words), print_)
    {
      hide Scored, Cutter.Postings;
      print_ := map[];
      ghost var query := [];
      NothingScored(cutter, index.forwardIndex);
      for i := 0 to |words|
        invariant query == AllLower(words)[..i] && Scored(cutter, index.forwardIndex, query, print_)
      {
        var word := ToLower(words[i]);
        var list := ListAt(index.invertedIndex, word);
        OneMoreWord(cutter, index.forwardIndex, query, word, print_);
        ghost var before := print_;
        for k := 0 to |list|
          invariant print_ == AddAll(before, list[..k])
        {
          assert list[..k + 1][..k] == list[..k];
          print_ := AddElem(print_, list[k]);
        }
        assert list[..|list|] == list;
        query := query + [word];
        assert AllLower(words)[..i + 1] == query;
      }
      assert query == AllLower(words);
    }

    /** Move the entries of the table into a vector; the table has no order of its own. */
    method Collect(print_: map<nat, Print>) returns (list: seq<Print>)
      requires forall d :: d in print_ ==> print_[d].docId == d
      ensures Listed(print_, list)
    {
      var todo := print_.Keys;
      list := [];
      while todo != {}
        invariant todo <= print_.Keys
        invariant forall i, j :: 0 <= i < j < |list| ==> list[i].docId != list[j].docId
        invariant forall i :: 0 <= i < |list| ==>
          list[i].docId in print_ && list[i].docId !in todo && print_[list[i].docId] == list[i]
        invariant forall d :: d in print_ && d !in todo ==> exists i :: 0 <= i < |list| && list[i].docId == d
        decreases |todo|
      {
        var d :| d in todo;
        ghost var before := list;
        todo := todo - {d};
        list := list + [print_[d]];
        assert list[|before|].docId == d;
        forall e | e in print_ && e !in todo ensures exists i :: 0 <= i < |list| && list[i].docId == e {
          if e != d {
            var i :| 0 <= i < |before| && before[i].docId == e;
            assert list[i].docId == e;
          }
        }
      }
    }

    /** `Search`, up to the text shown with each result: every document with a word of the query, once, with the sum of
        its weights for the words of the query, best first; no look-up of a document fails. */
    method Search(query: string) returns (root: seq<Hit>)
      requires index.Valid() && cutter == index.cutter
      ensures Answers(cutter, index.forwardIndex, cutter.Words(query), root)
    {
      hide Scored, Listed, Answers, Sorted;
      var words := cutter.CutStringForSearch(query);
      var print_ := Merge(words);
      ghost var docs, ws := index.forwardIndex, AllLower(words);
      EntriesFit(cutter, docs, ws, print_);
      var all := Collect(print_);
      var sorted := SortByWeight(all);
      StillListed(print_, all, sorted);
      root := [];
      for i := 0 to |sorted|
        invariant |root| == i && forall j :: 0 <= j < i ==> HitOf(docs, sorted[j], root[j])
      {
        EntryIsHit(cutter, docs, ws, print_, sorted, i);
        var found := index.GetForwardIndex(sorted[i].docId);
        var doc := found.doc;
        root := root + [Hit(doc.title, doc.url, sorted[i].docId, sorted[i].weight, sorted[i].words[0])];
      }
      Answered(cutter, docs, ws, print_, sorted, root);
    }
  }

  ghost predicate HitOf(docs: seq<DocInfo>, p: Print, h: Hit) {
    && p.docId < |docs| && |p.words| > 0
    && h == Hit(docs[p.docId].title, docs[p.docId].url, p.docId, p.weight, p.words[0])
  }

  lemma EntriesFit(cutter: Cutter, docs: seq<DocInfo>, query: seq<string>, print_: map<nat, Print>)
    requires Scored(cutter, docs, query, print_)
    ensures forall d :: d in print_ ==> print_[d].docId == d
  {
    forall d | d in print_ ensures print_[d].docId == d {
      assert ScoredAt(cutter, docs[d], query, print_, d);
    }
  }

  /** Putting a list in another order keeps every entry in it once. */
  lemma StillListed(print_: map<nat, Print>, a: seq<Print>, b: seq<Print>)
    requires Listed(print_, a) && multiset(a) == multiset(b)
    ensures Listed(print_, b)
  {
    forall i | 0 <= i < |b| ensures b[i].docId in print_ && print_[b[i].docId] == b[i] {
      assert b[i] in multiset(a);
    }
    forall i, j | 0 <= i < j < |b| ensures b[i].docId != b[j].docId {
      if b[i] == b[j] {
        OnceIn(a, b[i]);
        TwiceIn(b, i, j);
      }
    }
    forall d | d in print_ ensures exists i :: 0 <= i < |b| && b[i].docId == d {
      var i :| 0 <= i < |a| && a[i].docId == d;
      assert a[i] in multiset(b);
    }
  }

  lemma {:induction false} OnceIn(a: seq<Print>, x: Print)
    requires forall i, j :: 0 <= i < j < |a| ==> a[i] != a[j]
    ensures multiset(a)[x] <= 1
  {
    if |a| > 0 {
      var n := |a| - 1;
      assert a == a[..n] + [a[n]];
      OnceIn(a[..n], x);
      assert a[n] !in multiset(a[..n]);
    }
  }

  lemma TwiceIn(b: seq<Print>, i: nat, j: nat)
    requires i < j < |b| && b[i] == b[j]
    ensures multiset(b)[b[i]] >= 2
  {
    assert b == b[..j] + b[j..];
    assert b[i] == b[..j][i] && b[j] == b[j..][0];
    assert b[i] in multiset(b[..j]) && b[i] in multiset(b[j..]);
  }

  lemma EntryIsHit(cutter: Cutter, docs: seq<DocInfo>, query: seq<string>, print_: map<nat, Print>, list: seq<Print>,
      i: nat)
    requires Scored(cutter, docs, query, print_) && Listed(print_, list) && i < |list|
    ensures list[i].docId < |docs| && |list[i].words| > 0
    ensures var doc := docs[list[i].docId];
      list[i].weight == cutter.Score(doc, query) > 0 && list[i].words == cutter.Hits(doc, query)
  {
    var d := list[i].docId;
    assert ScoredAt(cutter, docs[d], query, print_, d);
    cutter.PositiveScore(docs[d], query);
  }

  lemma Answered(cutter: Cutter, docs: seq<DocInfo>, query: seq<string>, print_: map<nat, Print>, list: seq<Print>,
      root: seq<Hit>)
    requires Scored(cutter, docs, query, print_) && Listed(print_, list) && Sorted(list)
    requires |root| == |list| && forall j :: 0 <= j < |root| ==> HitOf(docs, list[j], root[j])
    ensures Answers(cutter, docs, query, root)
  {
    forall i | 0 <= i < |root| ensures IsHit(cutter, docs, query, root[i]) {
      assert HitOf(docs, list[i], root[i]);
      EntryIsHit(cutter, docs, query, print_, list, i);
    }
    forall i, j | 0 <= i < j < |root| ensures root[i].weight >= root[j].weight && root[i].docId != root[j].docId {
      assert HitOf(docs, list[i], root[i]) && HitOf(docs, list[j], root[j]);
    }
    forall d | 0 <= d < |docs| && cutter.Score(docs[d], query) > 0
      ensures exists i :: 0 <= i < |root| && root[i].docId == d {
      assert ScoredAt(cutter, docs[d], query, print_, d);
      var i :| 0 <= i < |list| && list[i].docId == d;
      assert HitOf(docs, list[i], root[i]);
    }
  }

  /** Every entry of the table once, in some order. */
  ghost predicate Listed(print_: map<nat, Print>, list: seq<Print>) {
    && (forall i, j :: 0 <= i < j < |list| ==> list[i].docId != list[j].docId)
    && (forall i :: 0 <= i < |list| ==> list[i].docId in print_ && print_[list[i].docId] == list[i])
    && (forall d :: d in print_ ==> exists i :: 0 <= i < |list| && list[i].docId == d)
  }

  lemma NothingScored(cutter: Cutter, docs: seq<DocInfo>)
    ensures Scored(cutter, docs, [], map[])
  {
  }

  // ----- the file written by the parser, read by the index -----

  function WithContent(pages: seq<R.Page>): seq<R.Page> {
    if |pages| == 0 then []
    else WithContent(pages[..|pages| - 1]) + if pages[|pages| - 1].content != "" then [pages[|pages| - 1]] else []
  }

  function Numbered(pages: seq<R.Page>): seq<DocInfo> {
    seq(|pages|, i requires 0 <= i < |pages| => DocInfo(pages[i].title, pages[i].content, pages[i].url, i))
  }

  lemma {:induction false} DocsOfRecords(pages: seq<R.Page>, lines: seq<string>)
    requires |lines| == |pages| && forall i :: 0 <= i < |pages| ==>
      R.Storable(pages[i]) && lines[i] == R.Record(pages[i])
    ensures DocsOf([], lines) == Numbered(WithContent(pages))
  {
    hide R.Storable, R.Record, R.CutString;
    if |pages| > 0 {
      var n := |pages| - 1;
      DocsOfRecords(pages[..n], lines[..n]);
      R.CutRecord(pages[n]);
      NumberedMore(WithContent(pages[..n]), pages[n]);
    }
  }

  lemma NumberedMore(pages: seq<R.Page>, p: R.Page)
    ensures Numbered(pages + [p]) == Numbered(pages) + [DocInfo(p.title, p.content, p.url, |pages|)]
  {
  }

  /** Saving documents and building the forward index from the file gives the documents with content, in order,
      numbered by their position; documents without content are lost, and only those. */
  lemma RawRoundTrip(pages: seq<R.Page>)
    requires forall p :: p in pages ==> R.Storable(p)
    ensures DocsOf([], R.Lines(R.Saved(pages))) == Numbered(WithContent(pages))
    ensures |WithContent(pages)| == |pages| <==> forall i :: 0 <= i < |pages| ==> pages[i].content != ""
  {
    hide R.Storable, R.Lines, R.Saved, R.Record, DocsOf, WithContent;
    R.LinesOfSaved(pages);
    forall i | 0 <= i < |pages| ensures R.Storable(pages[i]) {
      assert pages[i] in pages;
    }
    DocsOfRecords(pages, R.Lines(R.Saved(pages)));
    AllHaveContent(pages);
  }

  lemma {:induction false} AllHaveContent(pages: seq<R.Page>)
    ensures |WithContent(pages)| <= |pages|
    ensures |WithContent(pages)| == |pages| <==> forall i :: 0 <= i < |pages| ==> pages[i].content != ""
  {
    if |pages| > 0 {
      AllHaveContent(pages[..|pages| - 1]);
    }
  }
}
