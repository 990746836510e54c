/** In which order the documents of a search come out. */
module SearchRanking {
  import opened Common
  import opened Tokens
  import opened Fields
  import opened SearchQuery
  import opened SearchMatching
  import opened SearchReadings

  /** Of the document's rows only those of one token start with the word. */
  predicate OnlyMatch(q: Search, word: string, d: int, token: string) {
    && word <= token
    && (exists r :: r in q.rows && r.index == q.index && r.entry.doc == d && r.entry.token == token)
    && forall r :: r in q.rows && r.index == q.index && r.entry.doc == d && word <= r.entry.token
                   ==> r.entry.token == token
  }

  lemma OnlyMatchFound(q: Search, t: Term, d: int, token: string)
    requires WfSearch(q) && IsSound([t]) && t.field.None? && q.o.startswith && OnlyMatch(q, t.text, d, token)
    ensures Found(Hits(q, [t]), d) == {token}
  {
    assert token[..|token|] == token;
    hide WfSearch, Hits, Found;
    forall f ensures f in Found(Hits(q, [t]), d) <==> f == token {
      FoundIff(q, [t], d, f);
      if f == token {
        var r :| r in q.rows && r.index == q.index && r.entry.doc == d && r.entry.token == token;
        assert Matches(true, t, r.entry) && t in [t];
      }
    }
  }

  lemma OnlyMatchScore(q: Search, t: Term, d: int, token: string)
    requires WfSearch(q) && IsSound([t]) && t.field.None? && q.o.startswith && OnlyMatch(q, t.text, d, token)
    ensures BranchScores(q, [t]).Ok? && d in BranchScores(q, [t]).value
    ensures Some(BranchScores(q, [t]).value[d]) == TokenScore(q.l.isStop, {t.text}, token)
  {
    OnlyMatchFound(q, t, d, token);
    BranchSucceeds(q, [t]);
    FoundFits(q, [t], d);
    assert Texts([t]) == {t.text} by { assert t in [t]; }
    DocsIff(Hits(q, [t]), d);
    hide WfSearch, Hits, Found, TokenScore, Texts;
    assert Outcome(q, [t], d) == Verdict(true, {token});
    SumWithout(q.l.isStop, {t.text}, {token}, token);
    assert {token} - {token} == {};
    SumOfNone(q.l.isStop, {t.text});
  }

  /**
   A search with startswith for a word ranks the documents by how much of the token found the word makes up: the one
   with the shorter token comes first.
   */
  lemma CloserMatchComesFirst(q: Search, word: string, stopwords: bool, branches: seq<seq<Term>>,
                              scores: map<int, real>, ids: seq<int>, a: int, x: string, b: int, y: string)
    requires WfLocale(q.l) && WfSearch(q) && q.o.startswith && IsPlainText(q.l, word)
    requires (stopwords || !q.l.isStop(word)) && ReadsAll(q.l, word, stopwords, branches)
    requires TotalScores(q, Effective(q.o, branches)) == Ok(scores)
    requires IsRanked(scores, ids) && multiset(ids) == multiset(scores.Keys)
    requires OnlyMatch(q, word, a, x) && OnlyMatch(q, word, b, y) && !q.l.isStop(x) && !q.l.isStop(y) && |x| < |y|
    ensures Precedes(ids, a, b)
  {
    hide WfLocale, WfSearch, IsPlainText, ReadsAll, TotalScores, Effective, BranchScores, TokenScore, IsRanked, Precedes;
    hide OnlyMatch, TokenizeContent, Lower, IsDropped;
    var t := Term(Word, None, word);
    PlainTextReads(q.l, word, stopwords, branches);
    PlainTextIsWord(q.l, word);
    assert IsSound([t]);
    CloserScoresHigher(q, t, a, x, b, y);
    OneBranch(q.o, t);
    OneBranchTotal(q, t);
    HigherComesFirst(scores, ids, a, b);
  }

  lemma CloserScoresHigher(q: Search, t: Term, a: int, x: string, b: int, y: string)
    requires WfSearch(q) && IsSound([t]) && t.field.None? && q.o.startswith
    requires OnlyMatch(q, t.text, a, x) && OnlyMatch(q, t.text, b, y)
    requires !q.l.isStop(x) && !q.l.isStop(y) && |x| < |y|
    ensures BranchScores(q, [t]).Ok? && a in BranchScores(q, [t]).value && b in BranchScores(q, [t]).value
    ensures BranchScores(q, [t]).value[a] > BranchScores(q, [t]).value[b]
  {
    assert t in [t] && t.text != "" && t.text <= x && t.text <= y;
    hide WfSearch, BranchScores, TokenScore, OnlyMatch, IsSound;
    OnlyMatchScore(q, t, a, x);
    OnlyMatchScore(q, t, b, y);
    CloserScoresMore(q.l.isStop, t.text, x, y);
  }

  lemma CloserScoresMore(stop: string -> bool, word: string, x: string, y: string)
    requires word != "" && word <= x && word <= y && |x| < |y| && !stop(x) && !stop(y)
    ensures TokenScore(stop, {word}, x).Some? && TokenScore(stop, {word}, y).Some?
    ensures TokenScore(stop, {word}, x).value > TokenScore(stop, {word}, y).value
  {
    hide TokenScore;
    assert IsBest({word}, x, word) && IsBest({word}, y, word);
    ShorterScoresMore(stop, {word}, x, y, word);
  }

  /** The scores of a search for one term are those of its branch. */
  lemma OneBranchTotal(q: Search, t: Term)
    requires BranchScores(q, [t]).Ok?
    ensures TotalScores(q, [[t]]) == BranchScores(q, [t])
  {
    hide BranchScores;
    var one := [[t]];
    assert one[..0] == [];
    assert TotalScores(q, []) == Ok(map[]);
    assert AddScores(map[], BranchScores(q, [t]).value) == BranchScores(q, [t]).value;
  }
}
