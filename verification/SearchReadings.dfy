/** What some queries are read as, and what they find: single words, stop words, words in a field, phrases. */
module SearchReadings {
  import opened Common
  import opened Tokens
  import opened Fields
  import opened SearchKeys
  import opened SearchQuery
  import opened SearchMatching

  /** A query of a single term with at most one token. */
  lemma SoleTerm(l: Locale, query: string, raw: Raw, t: Term, stopwords: bool, branches: seq<seq<Term>>)
    requires Lower(l, query) == query && SplitOr(query) == [query] && Scan(query, "", false) == [raw]
    requires Classifiable([raw]) && ClassifyAll([raw]) == [t]
    requires t.kind == Exact || |TokenizeContent(l.cc, t.text)| <= 1
    requires ReadsAll(l, query, stopwords, branches)
    ensures branches == [if Stays(l, stopwords, t) then [t] else []]
  {
    hide Lower, SplitOr, Scan, TokenizeContent, Classifiable, ClassifyAll;
    SoleExpansion(l.cc, t);
    assert Reads(l, query, stopwords, branches[0]);
    hide ExpandAll, Stays;
    if Stays(l, stopwords, t) { OnlyTerm(branches[0], t); } else { SomeTerm(branches[0]); }
  }

  lemma SoleExpansion(cc: CharClass, t: Term)
    requires t.kind == Exact || |TokenizeContent(cc, t.text)| <= 1
    ensures ExpandAll(cc, [t]) == multiset{t}
  {
    hide TokenizeContent;
    var terms := [t];
    assert terms[..0] == [] && Expand(cc, t) == {t};
  }

  lemma OnlyTerm(b: seq<Term>, t: Term)
    requires forall x :: multiset(b)[x] == if x == t then 1 else 0
    ensures b == [t]
  {
    assert multiset(b) == multiset{t};
    assert |b| == |multiset(b)|;
    assert b[0] in multiset(b);
  }

  // ------------------------------------------------------------------ plain words

  /** Alphanumeric lower-case text is one word of at most one token, free of what queries treat specially. */
  lemma PlainTextIsWord(l: Locale, word: string)
    requires WfLocale(l) && IsPlainText(l, word)
    ensures Lower(l, word) == word && SPACE !in word && DOUBLE_QUOTE !in word && COLON !in word && !IsDropped(word)
    ensures |TokenizeContent(l.cc, word)| <= 1 && SearchKeys.BAR !in word && word != ""
  {
    assert DOUBLE_QUOTE in Symbols() && COLON in Symbols() && SearchKeys.BAR in Symbols();
    assert '.' in Symbols() && '-' in Symbols();
    LowerFixed(l, word);
    assert forall c :: c in word ==> l.cc.alnum(c);
    hide Symbols, TokenizeContent, TokenizeWords, Acronyms;
    AlnumHasNoAcronyms(l.cc, word);
    OneWordTokens(l.cc, word, word);
    NoMoreTokens(l.cc, word, word);
    if word in TokenizeContent(l.cc, word) {
      assert TokenizeContent(l.cc, word) == {word};
    } else {
      assert TokenizeContent(l.cc, word) == {};
    }
  }

  /** It is searched for as it stands, unless it is a stop word and these are ignored. */
  lemma PlainTextReads(l: Locale, word: string, stopwords: bool, branches: seq<seq<Term>>)
    requires WfLocale(l) && IsPlainText(l, word) && ReadsAll(l, word, stopwords, branches)
    ensures branches == if stopwords || !l.isStop(word) then [[Term(Word, None, word)]] else [[]]
  {
    PlainTextIsWord(l, word);
    hide WfLocale, IsPlainText, Scan, TokenizeContent, ReadsAll, Lower, SplitOr, IsDropped, ClassifyAll;
    SplitOrWhole(word);
    ReadsAsWord(l, word);
    SoleTerm(l, word, Raw(None, word), Term(Word, None, word), stopwords, branches);
  }

  /** An ignored stop word finds nothing, any term sufficing. */
  lemma StopWordFindsNothing(q: Search, word: string, branches: seq<seq<Term>>)
    requires WfLocale(q.l) && IsPlainText(q.l, word) && q.l.isStop(word) && !q.o.all
    requires ReadsAll(q.l, word, false, branches)
    ensures TotalScores(q, Effective(q.o, branches)) == Ok(map[])
  {
    PlainTextReads(q.l, word, false, branches);
    hide WfLocale, IsPlainText, ReadsAll;
    var none: seq<seq<Term>> := [[]];
    assert none[..0] == [] && Singles(none) == Singles([]) + EachAlone([]) && EachAlone([]) == [];
  }

  // -------------------------------------------------------------- words in a field

  /** A field name, a colon and a plain word are read as that word in that field. */
  lemma FieldWordReads(l: Locale, name: string, word: string, stopwords: bool, branches: seq<seq<Term>>)
    requires WfLocale(l) && IsPlainText(l, name) && IsPlainText(l, word) && l.lower(':') == ":"
    requires (stopwords || !l.isStop(word)) && ReadsAll(l, name + ":" + word, stopwords, branches)
    ensures branches == [[Term(Word, Some(name), word)]]
  {
    var query, t := name + ":" + word, Term(Word, Some(name), word);
    PlainTextIsWord(l, name);
    PlainTextIsWord(l, word);
    LowerInPlace(l, name, ':', word);
    assert forall c :: c in name + word ==> c in name || c in word;
    assert SPACE !in query;
    assert Stays(l, stopwords, t);
    hide WfLocale, IsPlainText, Scan, TokenizeContent, ReadsAll, Lower, SplitOr, IsDropped, ClassifyAll, Stays;
    SplitOrWhole(query);
    FieldWord(name, word);
    SoleTerm(l, query, Raw(Some(name), word), t, stopwords, branches);
  }

  /** The query finds exactly the documents that have the word, or with startswith a longer one, in that field. */
  lemma FieldWordFinds(q: Search, name: string, word: string, stopwords: bool, branches: seq<seq<Term>>, d: int)
    requires WfLocale(q.l) && WfSearch(q) && IsPlainText(q.l, name) && IsPlainText(q.l, word)
    requires q.l.lower(':') == ":" && (stopwords || !q.l.isStop(word)) && !q.o.all
    requires ReadsAll(q.l, name + ":" + word, stopwords, branches)
    ensures TotalScores(q, Effective(q.o, branches)).Ok?
    ensures d in TotalScores(q, Effective(q.o, branches)).value
            <==> exists r :: r in q.rows && r.index == q.index && r.entry.doc == d && r.entry.field == name
                             && (r.entry.token == word || (q.o.startswith && word <= r.entry.token))
  {
    var t := Term(Word, Some(name), word);
    FieldWordReads(q.l, name, word, stopwords, branches);
    PlainTextIsWord(q.l, name);
    PlainTextIsWord(q.l, word);
    hide WfLocale, WfSearch, IsPlainText, ReadsAll, TotalScores, Effective, TokenizeContent, Lower, IsDropped;
    SoleTermFinds(q, t, d);
    assert name != "";
  }

  lemma SoleTermFinds(q: Search, t: Term, d: int)
    requires WfSearch(q) && !q.o.all && t.kind == Word && t.text != "" && SearchKeys.BAR !in t.text
    ensures TotalScores(q, Effective(q.o, [[t]])).Ok?
    ensures d in TotalScores(q, Effective(q.o, [[t]])).value
            <==> exists r :: r in q.rows && r.index == q.index && r.entry.doc == d && Matches(q.o.startswith, t, r.entry)
  {
    assert IsSound([t]) && AllSound([[t]]);
    hide WfSearch, IsSound, AllSound, TotalScores, Effective, Matches;
    AnyTermResult(q, [[t]], d);
    forall e ensures Wanted(q, [[t]], e) <==> Matches(q.o.startswith, t, e) {
      SoleWanted(q, t, e);
    }
  }

  lemma SoleWanted(q: Search, t: Term, e: Entry)
    ensures Wanted(q, [[t]], e) <==> Matches(q.o.startswith, t, e)
  {
    hide Matches;
    assert t in [t] && [t] in [[t]];
  }

  // ----------------------------------------------------------------- exact phrases

  /** A text in quotes is read as an exact phrase, which is not implemented. */
  lemma PhraseIsNotImplemented(q: Search, text: string, stopwords: bool, branches: seq<seq<Term>>)
    requires Lower(q.l, Quoted(text)) == Quoted(text) && '"' !in text && ':' !in text
    requires OrFirstBehind(Quoted(text)) && (stopwords || (text != "" && !q.l.isStop(text)))
    requires ReadsAll(q.l, Quoted(text), stopwords, branches)
    ensures TotalScores(q, Effective(q.o, branches)) == Err(NotImplemented)
  {
    var query, t := Quoted(text), Term(Exact, None, text);
    assert Stays(q.l, stopwords, t) && Classifiable([Raw(None, query)]);
    hide Lower, Scan, ReadsAll, Quoted, OrFirstBehind, SplitOr, ClassifyAll, Stays;
    SplitOrNone(query);
    QuotedPhrase(text);
    SoleTerm(q.l, query, Raw(None, query), t, stopwords, branches);
    assert t in [t];
    OneBranch(q.o, t);
    assert [[t]][..0] == [] && BranchScores(q, [t]) == Err(NotImplemented) && TotalScores(q, []) == Ok(map[]);
  }

  lemma OneBranch(o: Options, t: Term)
    ensures Effective(o, [[t]]) == [[t]]
  {
    var one := [[t]];
    assert one[..0] == [] && Singles([]) == [] && EachAlone([t]) == [[t]];
  }
}
