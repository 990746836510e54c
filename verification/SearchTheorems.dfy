/** What a search finds in an index that documents are being added to, removed from and cleaned up in. */
module SearchTheorems {
  import opened Tokens
  import opened Fields
  import opened SearchKeys
  import opened SearchIndex
  import opened SearchQuery
  import opened SearchMatching

  /** The table holds the entries of this index, besides rows of others. */
  ghost predicate IsTableOf(q: Search, s: State) {
    forall e :: Row(q.index, e) in q.rows <==> e in s.entries
  }

  /** The documents returned: those with a score that have a record. */
  ghost function Results(q: Search, s: State, branches: seq<seq<Term>>): set<int>
    requires TotalScores(q, Effective(q.o, branches)).Ok?
  {
    s.records.Keys * TotalScores(q, Effective(q.o, branches)).value.Keys
  }

  /** A query without the key separator and without quotes has sound branches. */
  lemma QueryIsSound(l: Locale, query: string, stopwords: bool, branches: seq<seq<Term>>)
    requires WfLocale(l) && ReadsAll(l, query, stopwords, branches) && SearchKeys.BAR !in Lower(l, query)
    requires DOUBLE_QUOTE !in Lower(l, query)
    ensures AllSound(branches)
  {
    hide WfLocale, ReadsAll;
    forall b, t | b in branches && t in b
      ensures t.kind == Word && t.text != "" && SearchKeys.BAR !in t.text
    {
      TermsAreSound(l, query, stopwords, branches, b, t);
    }
  }

  /** An entry of the document that some term of the query matches. */
  predicate WantedOf(q: Search, branches: seq<seq<Term>>, d: int, e: Entry) {
    e.doc == d && Wanted(q, branches, e)
  }

  /** With any term sufficing, the results are the recorded documents with a matching entry of any revision. */
  lemma ResultIff(q: Search, s: State, branches: seq<seq<Term>>, d: int)
    requires WfSearch(q) && AllSound(branches) && !q.o.all && IsTableOf(q, s)
    ensures TotalScores(q, Effective(q.o, branches)).Ok?
    ensures d in Results(q, s, branches)
            <==> d in s.records && exists e :: e in s.entries && WantedOf(q, branches, d, e)
  {
    hide WfSearch, AllSound, TotalScores, Effective, Wanted;
    AnyTermResult(q, branches, d);
    if r :| r in q.rows && r.index == q.index && r.entry.doc == d && Wanted(q, branches, r.entry) {
      assert r == Row(q.index, r.entry);
      assert r.entry in s.entries && WantedOf(q, branches, d, r.entry);
    }
    if e :| e in s.entries && WantedOf(q, branches, d, e) {
      assert Row(q.index, e) in q.rows;
    }
  }

  /**
   At every reachable state, with any term sufficing: a search finds every live document whose current data
   holds a searched token, before any cleanup has run.
   */
  lemma FindsEveryLiveDocument(w: World, log: seq<Action>, q: Search, branches: seq<seq<Term>>, e: Entry)
    requires IsRun(w, INITIAL, log)
    requires WfSearch(q) && AllSound(branches) && !q.o.all && IsTableOf(q, After(w, INITIAL, log))
    requires IsLive(w, After(w, INITIAL, log), e) && Wanted(q, branches, e)
    ensures TotalScores(q, Effective(q.o, branches)).Ok?
    ensures e.doc in Results(q, After(w, INITIAL, log), branches)
  {
    ReachableInv(w, log);
    hide IsRun, After, WfSearch, AllSound, IsTableOf, Wanted, IsEntryOf;
    ResultIff(q, After(w, INITIAL, log), branches, e.doc);
    assert WantedOf(q, branches, e.doc, e);
  }

  /**
   At every reachable state, with any term sufficing: a document found without a current entry that matches is
   found through entries of an old revision, which a pending job will collect.
   */
  lemma ExtrasAreOld(w: World, log: seq<Action>, q: Search, branches: seq<seq<Term>>, d: int) returns (e: Entry)
    requires IsRun(w, INITIAL, log)
    requires WfSearch(q) && AllSound(branches) && !q.o.all && IsTableOf(q, After(w, INITIAL, log))
    requires TotalScores(q, Effective(q.o, branches)).Ok? && d in Results(q, After(w, INITIAL, log), branches)
    ensures var s := After(w, INITIAL, log);
            && d in s.records && e in s.entries && WantedOf(q, branches, d, e)
            && (IsLive(w, s, e) || (e.rev != s.records[d].rev && IsCovered(s, e)))
  {
    ReachableInv(w, log);
    hide IsRun, After, WfSearch, AllSound, IsTableOf, Wanted, IsEntryOf;
    var s := After(w, INITIAL, log);
    ResultIff(q, s, branches, d);
    e :| e in s.entries && WantedOf(q, branches, d, e);
  }

  /** Once the jobs are done, with any term sufficing, the results are exact. */
  lemma DrainedResultsAreExact(w: World, log: seq<Action>, q: Search, branches: seq<seq<Term>>, d: int)
    requires IsRun(w, INITIAL, log) && After(w, INITIAL, log).jobs == multiset{}
    requires WfSearch(q) && AllSound(branches) && !q.o.all && IsTableOf(q, After(w, INITIAL, log))
    ensures TotalScores(q, Effective(q.o, branches)).Ok?
    ensures d in Results(q, After(w, INITIAL, log), branches)
            <==> exists e :: IsLive(w, After(w, INITIAL, log), e) && WantedOf(q, branches, d, e)
  {
    ReachableInv(w, log);
    var s := After(w, INITIAL, log);
    DrainedIsExact(w, s);
    hide IsRun, After, WfSearch, AllSound, IsTableOf, Wanted, IsEntryOf, Inv, IsCovered;
    ResultIff(q, s, branches, d);
    if e :| e in s.entries && WantedOf(q, branches, d, e) {
      assert IsLive(w, s, e);
    }
    if e :| IsLive(w, s, e) && WantedOf(q, branches, d, e) {
      assert e in s.entries;
    }
  }

  // ------------------------------------------------------------ all terms required

  /** The branch has no terms, or one of them matches the entry. */
  predicate MatchedBy(q: Search, b: seq<Term>, e: Entry) {
    b == [] || exists t :: t in b && Matches(q.o.startswith, t, e)
  }

  /** What a branch without terms also finds: the tokens of such a document in other indexes. */
  function ForeignTokens(q: Search, b: seq<Term>, d: int): set<string> {
    if b == [] then set r | r in q.rows && r.index != q.index && r.entry.doc == d :: r.entry.token else {}
  }

  /** The tokens of a document that a branch finds, at whatever revision. */
  function FoundTokens(s: State, q: Search, b: seq<Term>, d: int): set<string> {
    (set e | e in s.entries && e.doc == d && MatchedBy(q, b, e) :: e.token) + ForeignTokens(q, b, d)
  }

  /** Without those of old revisions. */
  function LiveTokens(s: State, q: Search, b: seq<Term>, d: int): set<string> {
    (set e | e in s.entries && e.doc == d && IsCurrent(s, e) && MatchedBy(q, b, e) :: e.token) + ForeignTokens(q, b, d)
  }

  lemma FoundIsFoundTokens(q: Search, s: State, b: seq<Term>, d: int)
    requires WfSearch(q) && (b == [] || IsSound(b)) && IsTableOf(q, s)
    ensures Found(Hits(q, b), d) == FoundTokens(s, q, b, d)
  {
    hide WfSearch, IsSound, Matches;
    if b == [] {
      AllFoundTokens(q, s, d);
    } else {
      hide Found, Hits;
      forall f ensures f in Found(Hits(q, b), d) <==> f in FoundTokens(s, q, b, d) {
        FoundIff(q, b, d, f);
        if r, t :| r in q.rows && r.index == q.index && r.entry.doc == d && r.entry.token == f
                   && t in b && Matches(q.o.startswith, t, r.entry) {
          assert r == Row(q.index, r.entry) && MatchedBy(q, b, r.entry);
        }
        if e :| e in s.entries && e.doc == d && MatchedBy(q, b, e) && e.token == f {
          var t :| t in b && Matches(q.o.startswith, t, e);
          assert Row(q.index, e) in q.rows && Row(q.index, e).entry == e;
        }
      }
    }
  }

  /** A branch without terms finds every row of the table. */
  lemma AllFoundTokens(q: Search, s: State, d: int)
    requires IsTableOf(q, s)
    ensures Found(Hits(q, []), d) == FoundTokens(s, q, [], d)
  {
    forall f ensures f in Found(Hits(q, []), d) <==> f in FoundTokens(s, q, [], d) {
      if r :| r in q.rows && r.entry.doc == d && r.entry.token == f && r.index == q.index {
        assert r == Row(q.index, r.entry) && MatchedBy(q, [], r.entry);
      }
      if e :| e in s.entries && e.doc == d && e.token == f {
        assert Row(q.index, e) in q.rows && Row(q.index, e).entry == e;
      }
    }
  }

  /**
   With all terms required, a search fails only over a branch without terms; otherwise the results are the recorded
   documents that some branch accepts.
   */
  lemma AllTermsResultIff(q: Search, s: State, branches: seq<seq<Term>>, d: int)
    requires WfSearch(q) && AllSound(branches) && q.o.all && IsTableOf(q, s)
    ensures TotalScores(q, Effective(q.o, branches)).Ok? <==> !EmptyBreaks(q, branches)
    ensures !EmptyBreaks(q, branches)
            ==> (d in Results(q, s, branches)
                 <==> d in s.records
                      && exists b :: b in branches
                                     && Accepts(q.l.cc, q.o.startswith, Texts(b), FoundTokens(s, q, b, d)))
  {
    hide WfSearch, IsSound, BranchScores, Accepts, FoundTokens, IsTableOf, EmptyBreaks;
    AllTermsSucceedIff(q, branches);
    TotalFailsIff(q, branches);
    if !EmptyBreaks(q, branches) {
      forall b | b in branches
        ensures d in BranchScores(q, b).value
                <==> Accepts(q.l.cc, q.o.startswith, Texts(b), FoundTokens(s, q, b, d))
      {
        AllTermsAccept(q, b, d);
        FoundIsFoundTokens(q, s, b, d);
      }
      TotalOk(q, branches);
    }
  }

  /** An entry of an old revision that a pending job covers and the branch matches. */
  predicate IsLeftover(s: State, q: Search, b: seq<Term>, d: int, e: Entry) {
    e in s.entries && e.doc == d && !IsCurrent(s, e) && IsCovered(s, e) && MatchedBy(q, b, e)
  }

  /**
   At every reachable state, with all terms required: a result is accepted on its current tokens, or owes it to
   entries of an old revision that a pending job covers. Without pending jobs the results are exactly the
   documents accepted on their current tokens.
   */
  lemma AllTermsExtrasAreOld(w: World, log: seq<Action>, q: Search, branches: seq<seq<Term>>, d: int)
    requires IsRun(w, INITIAL, log) && IsTableOf(q, After(w, INITIAL, log))
    requires WfSearch(q) && AllSound(branches) && q.o.all
    ensures TotalScores(q, Effective(q.o, branches)).Ok? <==> !EmptyBreaks(q, branches)
    ensures var s := After(w, INITIAL, log);
            !EmptyBreaks(q, branches) && d in Results(q, s, branches)
            ==> exists b :: b in branches
                  && (Accepts(q.l.cc, q.o.startswith, Texts(b), LiveTokens(s, q, b, d))
                      || exists e :: IsLeftover(s, q, b, d, e))
    ensures var s := After(w, INITIAL, log);
            !EmptyBreaks(q, branches) && s.jobs == multiset{}
            ==> (d in Results(q, s, branches)
                 <==> d in s.records
                      && exists b :: b in branches
                                     && Accepts(q.l.cc, q.o.startswith, Texts(b), LiveTokens(s, q, b, d)))
  {
    ReachableInv(w, log);
    var s := After(w, INITIAL, log);
    hide IsRun, After, WfSearch, IsSound, IsTableOf, Accepts, Results, TotalScores, Effective, SearchIndex.Exact;
    hide EmptyBreaks, FoundTokens, LiveTokens;
    AllTermsResultIff(q, s, branches, d);
    forall b | b in branches
      ensures LiveTokens(s, q, b, d) == FoundTokens(s, q, b, d) || exists e :: IsLeftover(s, q, b, d, e)
      ensures s.jobs == multiset{} ==> LiveTokens(s, q, b, d) == FoundTokens(s, q, b, d)
    {
      LiveOrLeftover(w, s, q, b, d);
    }
  }

  lemma LiveOrLeftover(w: World, s: State, q: Search, b: seq<Term>, d: int)
    requires Inv(w, s)
    ensures LiveTokens(s, q, b, d) <= FoundTokens(s, q, b, d)
    ensures LiveTokens(s, q, b, d) == FoundTokens(s, q, b, d) || exists e :: IsLeftover(s, q, b, d, e)
    ensures s.jobs == multiset{} ==> LiveTokens(s, q, b, d) == FoundTokens(s, q, b, d)
  {
    hide MatchedBy, SearchIndex.Exact;
    if forall e :: !IsLeftover(s, q, b, d, e) {
      forall e | e in s.entries && e.doc == d && MatchedBy(q, b, e) ensures IsCurrent(s, e) {
        assert !IsLeftover(s, q, b, d, e);
      }
    }
  }

  /** Besides the live tokens these were found: they do no harm. */
  predicate Unharmed(startswith: bool, searched: set<string>, live: set<string>, found: set<string>) {
    startswith || live == searched || found == live || found == searched
  }

  lemma MoreTokens(cc: CharClass, startswith: bool, searched: set<string>, live: set<string>, found: set<string>)
    requires live <= found && Accepts(cc, startswith, searched, live)
    requires startswith || searched == {} || found <= searched
    ensures Accepts(cc, startswith, searched, found) <==> Unharmed(startswith, searched, live, found)
    ensures !Unharmed(startswith, searched, live, found) ==> |live| == 1 && found != live
  {
    hide TokenizeContent;
    if !startswith && found != live {
      assert found == live + (found - live);
      assert |found| == |live| + |found - live| && |found - live| > 0;
    }
  }

  /**
   At every reachable state, with all terms required: a document accepted on its current tokens stays accepted by
   that branch if and only if startswith is on, all terms are among those tokens, or the left-over entries add no
   token or all that were missing. Otherwise - it was accepted for a single token that has as many tokens as were
   searched - left-over entries that a pending job covers keep that branch from finding it.
   */
  lemma AcceptedUnlessHarmed(w: World, log: seq<Action>, q: Search, b: seq<Term>, d: int)
    requires IsRun(w, INITIAL, log) && IsTableOf(q, After(w, INITIAL, log))
    requires WfSearch(q) && (b == [] || IsSound(b)) && q.o.all
    requires Accepts(q.l.cc, q.o.startswith, Texts(b), LiveTokens(After(w, INITIAL, log), q, b, d))
    ensures var s := After(w, INITIAL, log);
            var unharmed := Unharmed(q.o.startswith, Texts(b), LiveTokens(s, q, b, d), FoundTokens(s, q, b, d));
            && (BranchScores(q, b).Ok? ==> (d in BranchScores(q, b).value <==> unharmed))
            && (!unharmed ==> |LiveTokens(s, q, b, d)| == 1 && exists e :: IsLeftover(s, q, b, d, e))
  {
    ReachableInv(w, log);
    var s := After(w, INITIAL, log);
    hide IsRun, After, IsTableOf, Inv, IsLeftover, Hits, Found, WfSearch, IsSound, TokenScore, BranchScores, Texts;
    hide LiveTokens, FoundTokens, Accepts, Unharmed;
    FoundIsFoundTokens(q, s, b, d);
    LiveOrLeftover(w, s, q, b, d);
    FoundAmongSearched(q, s, b, d);
    MoreTokens(q.l.cc, q.o.startswith, Texts(b), LiveTokens(s, q, b, d), FoundTokens(s, q, b, d));
    AllTermsAccept(q, b, d);
  }

  lemma FoundAmongSearched(q: Search, s: State, b: seq<Term>, d: int)
    ensures q.o.startswith || Texts(b) == {} || FoundTokens(s, q, b, d) <= Texts(b)
  {
  }

  /** The branch has terms, and the current data of the document hold all of them, each in its field. */
  predicate DataHoldsAll(w: World, s: State, b: seq<Term>, d: int) {
    b != [] && d in s.records
    && forall t :: t in b ==> exists f :: f in w.schema
                                          && IsLive(w, s, Entry(t.text, f, d, s.records[d].rev))
                                          && FieldFits(t, Entry(t.text, f, d, s.records[d].rev))
  }

  /** At every reachable state such a document is found, before any cleanup. */
  lemma AllTermsFindLiveDocuments(w: World, log: seq<Action>, q: Search, branches: seq<seq<Term>>, b: seq<Term>, d: int)
    requires IsRun(w, INITIAL, log) && IsTableOf(q, After(w, INITIAL, log))
    requires WfSearch(q) && AllSound(branches) && q.o.all && b in branches
    requires DataHoldsAll(w, After(w, INITIAL, log), b, d)
    ensures TotalScores(q, Effective(q.o, branches)).Ok? <==> !EmptyBreaks(q, branches)
    ensures !EmptyBreaks(q, branches) ==> d in Results(q, After(w, INITIAL, log), branches)
  {
    ReachableInv(w, log);
    var s := After(w, INITIAL, log);
    hide IsRun, After, WfSearch, IsSound, IsEntryOf, TotalScores, EmptyBreaks;
    forall t | t in b
      ensures exists r :: r in q.rows && r.index == q.index && r.entry.doc == d && r.entry.token == t.text
                          && FieldFits(t, r.entry)
    {
      var f :| f in w.schema && IsLive(w, s, Entry(t.text, f, d, s.records[d].rev))
               && FieldFits(t, Entry(t.text, f, d, s.records[d].rev));
      var e := Entry(t.text, f, d, s.records[d].rev);
      assert e in s.entries;
      assert Row(q.index, e) in q.rows && Row(q.index, e).entry == e;
    }
    AllTermsFind(q, branches, b, d);
  }
}
