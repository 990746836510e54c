/** The queries whose search fails, and why. */
module SearchFailures {
  import opened Common
  import opened Strings
  import opened Tokens
  import opened Fields
  import opened SearchKeys
  import opened SearchQuery
  import opened SearchMatching

  /** A term that holds the key separator and nevertheless reaches the row of a token that is no stop word. */
  predicate Misses(q: Search, t: Term) {
    SearchKeys.BAR in t.text
    && exists r :: r in q.rows && Selects(q.index, q.o.startswith, t, r) && !q.l.isStop(r.entry.token)
  }

  /** A query without quotes, any term sufficing, fails exactly when one of its terms does that. */
  lemma AnyTermFailsIff(q: Search, query: string, stopwords: bool, branches: seq<seq<Term>>)
    requires WfLocale(q.l) && WfSearch(q) && !q.o.all && DOUBLE_QUOTE !in Lower(q.l, query)
    requires ReadsAll(q.l, query, stopwords, branches)
    ensures TotalScores(q, Effective(q.o, branches)).Err?
            <==> exists b, t :: b in branches && t in b && Misses(q, t)
  {
    hide WfLocale, WfSearch, ReadsAll, BranchScores, Misses, Lower;
    TotalFailsIff(q, Singles(branches));
    forall b, t | b in branches && t in b
      ensures [t] in Singles(branches) && (BranchScores(q, [t]).Err? <==> Misses(q, t))
    {
      TermsAreSound(q.l, query, stopwords, branches, b, t);
      SinglesOf(branches, [t]);
      TermFailsIff(q, t);
    }
    if c :| c in Singles(branches) && BranchScores(q, c).Err? {
      SinglesOf(branches, c);
      var b, t :| b in branches && t in b && c == [t];
      assert Misses(q, t);
    }
  }

  /** A query without quotes, all terms required, fails exactly when one of its branches breaks. */
  lemma AllTermsQueryFailsIff(q: Search, query: string, stopwords: bool, branches: seq<seq<Term>>)
    requires WfLocale(q.l) && WfSearch(q) && q.o.all && DOUBLE_QUOTE !in Lower(q.l, query)
    requires ReadsAll(q.l, query, stopwords, branches)
    ensures TotalScores(q, Effective(q.o, branches)).Err? <==> exists b :: b in branches && Breaks(q, b)
  {
    hide WfLocale, WfSearch, ReadsAll, BranchScores, Breaks, Lower;
    TotalFailsIff(q, branches);
    forall b | b in branches ensures BranchScores(q, b).Err? <==> Breaks(q, b) {
      forall t | t in b ensures t.kind == Word && t.text != "" {
        TermsAreSound(q.l, query, stopwords, branches, b, t);
      }
      AllTermsFailIff(q, b);
    }
  }

  lemma TermFailsIff(q: Search, t: Term)
    requires WfSearch(q) && !q.o.all && t.kind == Word && t.text != ""
    ensures BranchScores(q, [t]).Err? <==> Misses(q, t)
  {
    hide WfSearch, BranchScores, Selects;
    FailsIffBarTextSelects(q, t);
  }

  /** Reading a token, the separator and a field name, all alphanumeric: that one word in full and nothing else. */
  lemma TokenBarFieldReads(l: Locale, token: string, field: string, stopwords: bool, branches: seq<seq<Term>>)
    requires WfLocale(l) && IsPlainText(l, token) && IsPlainText(l, field)
    requires l.lower(SearchKeys.BAR) == [SearchKeys.BAR]
    requires ReadsAll(l, token + [SearchKeys.BAR] + field, stopwords, branches)
    requires stopwords || !l.isStop(token + [SearchKeys.BAR] + field)
    ensures |branches| == 1 && branches[0] != []
    ensures forall t :: t in branches[0] ==> t == Term(Word, None, token + [SearchKeys.BAR] + field)
    ensures DOUBLE_QUOTE !in Lower(l, token + [SearchKeys.BAR] + field)
  {
    var query := token + [SearchKeys.BAR] + field;
    assert SearchKeys.BAR in Symbols() && DOUBLE_QUOTE in Symbols() && COLON in Symbols();
    forall c | c in query ensures c != SPACE && c != DOUBLE_QUOTE && c != COLON && l.lower(c) == [c] {
      assert c in token || c == SearchKeys.BAR || c in field;
    }
    LowerFixed(l, query);
    BarTextIsOneToken(l, token, field);
    hide WfLocale, Symbols, TokenizeContent;
    SplitOrWhole(query);
    ReadsAsWord(l, query);
    assert SplitOr(Lower(l, query))[0] == query && Reads(l, query, stopwords, branches[0]);
    var whole := Term(Word, None, query);
    assert Expand(l.cc, whole) == {whole} && Stays(l, stopwords, whole) && ClassifyAll([Raw(None, query)]) == [whole];
    hide Reads, Scan, ClassifyAll, Expand, Stays;
    forall t ensures t in branches[0] <==> t == whole {
      TermOrigin(l, query, stopwords, branches[0], t);
    }
  }

  /** Without the separator it is one alphanumeric word, which is its only token. */
  lemma BarTextIsOneToken(l: Locale, token: string, field: string)
    requires WfLocale(l) && IsAlnum(l.cc, token) && IsAlnum(l.cc, field)
    ensures |TokenizeContent(l.cc, token + [SearchKeys.BAR] + field)| <= 1
  {
    var text, joined := token + [SearchKeys.BAR] + field, token + field;
    assert SearchKeys.BAR in Symbols() && '.' in Symbols() && '-' in Symbols();
    assert forall c :: c in text ==> c in token || c in field || c == SearchKeys.BAR;
    hide Symbols, TokenizeContent, TokenizeWords, Acronyms;
    assert SPACE !in text && SearchKeys.BAR !in token && SearchKeys.BAR !in field;
    RemoveBar(token, field);
    OneWordTokens(l.cc, text, joined);
    AlnumHasNoAcronyms(l.cc, joined);
    NoMoreTokens(l.cc, text, joined);
    AtMostOne(TokenizeContent(l.cc, text), joined);
  }

  lemma RemoveBar(token: string, field: string)
    requires SearchKeys.BAR !in token && SearchKeys.BAR !in field
    ensures Remove(token + [SearchKeys.BAR] + field, SearchKeys.BAR) == token + field
  {
    RemoveItself(SearchKeys.BAR);
    hide Remove;
    RemoveConcat(token, [SearchKeys.BAR], SearchKeys.BAR);
    RemoveConcat(token + [SearchKeys.BAR], field, SearchKeys.BAR);
    assert token + [] == token;
  }

  lemma AtMostOne(s: set<string>, x: string)
    requires s <= {x}
    ensures |s| <= 1
  {
    if x in s { assert s == {x}; } else { assert s == {}; }
  }

  /** Such text selects rows of that token only. */
  lemma BarTextSelectsToken(index: string, startswith: bool, t: Term, token: string, field: string, r: Row)
    requires WfRow(r) && SearchKeys.BAR !in index && SearchKeys.BAR !in token
    requires t.text == token + [SearchKeys.BAR] + field && Selects(index, startswith, t, r)
    ensures r.entry.token == token
  {
    var key, bar := Pk(r), [SearchKeys.BAR];
    ScanIsStartswith(ExactStart(index, t.text), key);
    ScanIsStartswith(PrefixStart(index, t.text), key);
    KeyShape(r.index, r.entry);
    var rest := if ExactStart(index, t.text) <= key then field + bar else field;
    assert ExactStart(index, t.text) == index + bar + (token + bar + (field + bar));
    assert PrefixStart(index, t.text) == index + bar + (token + bar + field);
    PartPrefix(index, token + bar + rest, r.index, r.entry.token + bar + KeyTail(r.entry));
    PartPrefix(token, rest, r.entry.token, KeyTail(r.entry));
  }

  lemma OneText(branch: seq<Term>, t: Term)
    requires branch != [] && forall c :: c in branch ==> c == t
    ensures Texts(branch) == {t.text}
  {
    assert branch[0] in branch;
    assert branch[0].text in Texts(branch);
  }

  /** With all terms required and no startswith, a branch of just that text counts one token found and one searched. */
  lemma BarTextMiscounts(q: Search, e: Entry, branch: seq<Term>, t: Term)
    requires WfSearch(q) && !q.o.startswith && Row(q.index, e) in q.rows && !q.l.isStop(e.token)
    requires branch != [] && (forall c :: c in branch ==> c == t)
    requires t == Term(Word, None, e.token + [SearchKeys.BAR] + e.field)
    ensures Miscounts(q, branch, Row(q.index, e), t)
  {
    var row := Row(q.index, e);
    assert branch[0] in branch;
    assert WfRow(row) && branch[0] == t && t.text[|e.token|] == SearchKeys.BAR;
    BarTextSelects(q.index, q.o.startswith, e);
    BarStartsNothing(t.text, row);
    hide Selects, Pk, WfRow;
    OneText(branch, t);
    SelectedToken(q, branch, row, t);
    forall f | f in SelectedTokens(q, branch, e.doc) ensures f == e.token {
      var r :| r in q.rows && r.entry.token == f && Selects(q.index, q.o.startswith, t, r);
      BarTextSelectsToken(q.index, q.o.startswith, t, e.token, e.field, r);
    }
    hide SelectedTokens;
    assert SelectedTokens(q, branch, e.doc) == {e.token};
  }

  /**
   So searching for any indexed token, the separator and its field, all of them alphanumeric, fails - except with
   startswith and all terms required.
   */
  lemma TokenBarFieldQueryFails(q: Search, e: Entry, stopwords: bool, branches: seq<seq<Term>>)
    requires WfLocale(q.l) && WfSearch(q) && Row(q.index, e) in q.rows && !q.l.isStop(e.token)
    requires IsPlainText(q.l, e.token) && IsPlainText(q.l, e.field) && q.l.lower(SearchKeys.BAR) == [SearchKeys.BAR]
    requires ReadsAll(q.l, e.token + [SearchKeys.BAR] + e.field, stopwords, branches)
    requires stopwords || !q.l.isStop(e.token + [SearchKeys.BAR] + e.field)
    ensures TotalScores(q, Effective(q.o, branches)).Err? <==> !(q.o.all && q.o.startswith)
  {
    hide WfLocale, ReadsAll, IsPlainText, TotalScores, Lower, Selects, Miscounts, WfSearch;
    var query := e.token + [SearchKeys.BAR] + e.field;
    var t := Term(Word, None, query);
    TokenBarFieldReads(q.l, e.token, e.field, stopwords, branches);
    assert branches[0][0] in branches[0] && branches[0] in branches;
    assert branches[0][0] == t;
    if q.o.all {
      AllTermsQueryFailsIff(q, query, stopwords, branches);
      if !q.o.startswith {
        BarTextMiscounts(q, e, branches[0], t);
        assert Breaks(q, branches[0]);
      }
    } else {
      TokenRowMisses(q, e, t);
      AnyTermFailsIff(q, query, stopwords, branches);
    }
  }

  lemma TokenRowMisses(q: Search, e: Entry, t: Term)
    requires WfSearch(q) && Row(q.index, e) in q.rows && !q.l.isStop(e.token)
    requires t == Term(Word, None, e.token + [SearchKeys.BAR] + e.field)
    ensures Misses(q, t)
  {
    hide Selects;
    BarTextSelects(q.index, q.o.startswith, e);
    assert t.text[|e.token|] == SearchKeys.BAR;
  }

  /** The query ".": the symbol is dropped, and one branch without terms is left. */
  lemma DotIsEmpty(l: Locale, stopwords: bool, branches: seq<seq<Term>>)
    requires l.lower('.') == ['.'] && ReadsAll(l, ".", stopwords, branches)
    ensures branches == [[]]
  {
    assert "."[1..] == "" && Lower(l, ".") == ".";
    assert SPACE !in ".";
    SplitOrWhole(".");
    assert '.' in Symbols();
    assert Scan(".", "", false) == Finalize("" + ".");
    assert "" + "." == ".";
    var b := branches[0];
    assert Reads(l, ".", stopwords, b);
    SomeTerm(b);
  }

  /** Required in full and with startswith it fails as soon as the table holds a token that is no stop word. */
  lemma DotFailsIff(q: Search, stopwords: bool, branches: seq<seq<Term>>)
    requires q.o.all && q.o.startswith && q.l.lower('.') == ['.'] && ReadsAll(q.l, ".", stopwords, branches)
    ensures TotalScores(q, Effective(q.o, branches)).Err? <==> exists r :: r in q.rows && !q.l.isStop(r.entry.token)
  {
    DotIsEmpty(q.l, stopwords, branches);
    hide ReadsAll, BranchScores;
    TotalFailsIff(q, [[]]);
    EmptyBranchFailsIff(q);
  }
}
