/** Searching for a word of an indexed value as it stands: exactly when its document is found. */
module VerbatimSearch {
  import opened Common
  import opened Tokens
  import opened Fields
  import opened SearchKeys
  import opened TailedWords
  import opened SearchIndex
  import opened SearchQuery
  import opened SearchMatching
  import opened SearchTheorems

  // ---------------------------------------------------------------- the word

  /** A word of a field's value that can be searched for as it stands. */
  predicate IsPlainWord(l: Locale, value: string, word: string) {
    && word in Words(l.cc, Lower(l, value)) && AlnumOnly(l.cc, word) != ""
    && SearchKeys.BAR !in word && COLON !in word && DOUBLE_QUOTE !in word
  }

  /** A plain word is lower-case and free of white space. */
  lemma PlainWordIsNormal(l: Locale, value: string, word: string)
    requires WfLocale(l) && IsPlainWord(l, value, word)
    ensures Lower(l, word) == word && SpaceFree(l.cc, word) && SPACE !in word
  {
    NormalizedWords(l, value);
    LowerFixed(l, word);
  }

  /** It is read as one word. */
  lemma PlainWordReads(l: Locale, value: string, word: string)
    requires WfLocale(l) && IsPlainWord(l, value, word)
    ensures SplitOr(Lower(l, word)) == [word] && Scan(word, "", false) == [Raw(None, word)]
    ensures ClassifyAll([Raw(None, word)]) == [Term(Word, None, word)]
  {
    PlainWordIsNormal(l, value, word);
    hide Lower, Words;
    var a := AlnumOnly(l.cc, word);
    assert a[0] in a && a[0] in word && l.cc.alnum(a[0]);
    assert |word| == 1 ==> word[0] == a[0];
    assert !IsDropped(word);
    hide WfLocale, IsPlainWord, IsDropped;
    SplitOrWhole(word);
    ReadsAsWord(l, word);
  }

  /** The tokens of a word that are searched for. */
  function Staying(l: Locale, word: string, stopwords: bool): set<string> {
    set t | t in TokenizeContent(l.cc, word) && Stays(l, stopwords, Term(Word, None, t))
  }

  /** Those that clean_token leaves alone. */
  function Clean(cc: CharClass, tokens: set<string>): set<string> {
    set t | t in tokens && CleanToken(cc, t) == t
  }

  /** The branch has one unrestricted word for each of the tokens. */
  ghost predicate IsBranchOf(b: seq<Term>, tokens: set<string>) {
    forall t :: t in b <==> t == Term(Word, None, t.text) && t.text in tokens
  }

  lemma BranchTexts(b: seq<Term>, tokens: set<string>)
    requires IsBranchOf(b, tokens)
    ensures Texts(b) == tokens && (b == [] <==> tokens == {})
  {
    forall x | x in tokens ensures x in Texts(b) {
      assert Term(Word, None, x) in b;
    }
    if b != [] { assert b[0] in b; }
  }

  /** A word with something alphanumeric expands to exactly its tokens. */
  lemma PlainWordExpands(cc: CharClass, word: string, t: Term)
    requires SPACE !in word && SearchKeys.BAR !in word && AlnumOnly(cc, word) != ""
    ensures t in Expand(cc, Term(Word, None, word))
            <==> t == Term(Word, None, t.text) && t.text in TokenizeContent(cc, word)
  {
    hide TokenizeContent;
    WordIsToken(cc, word);
    if |TokenizeContent(cc, word)| <= 1 {
      OnlyOne(TokenizeContent(cc, word), word);
    }
  }

  /** A plain word is read as one branch of its tokens that stay. */
  lemma PlainWordBranch(l: Locale, value: string, word: string, stopwords: bool, branches: seq<seq<Term>>)
    requires WfLocale(l) && IsPlainWord(l, value, word) && ReadsAll(l, word, stopwords, branches)
    ensures Readable(l, word) && |branches| == 1 && IsBranchOf(branches[0], Staying(l, word, stopwords))
  {
    PlainWordIsNormal(l, value, word);
    PlainWordReads(l, value, word);
    hide Lower, Scan, SplitOr, WfLocale, TokenizeContent, Reads, ClassifyAll, Expand, AlnumOnly, Stays;
    var b, whole := branches[0], Term(Word, None, word);
    assert SplitOr(Lower(l, word))[0] == word && Reads(l, word, stopwords, b);
    assert Classifiable([Raw(None, word)]);
    assert whole in [whole];
    forall t ensures t in b <==> t == Term(Word, None, t.text) && t.text in Staying(l, word, stopwords) {
      TermOrigin(l, word, stopwords, b, t);
      PlainWordExpands(l.cc, word, t);
    }
  }

  lemma TokensAreSound(l: Locale, word: string, b: seq<Term>, tokens: set<string>)
    requires WfLocale(l) && b != [] && IsBranchOf(b, tokens) && tokens <= TokenizeContent(l.cc, word)
    ensures IsSound(b)
  {
    hide TokenizeContent, WfChars;
    forall t | t in b ensures t.text != "" && SearchKeys.BAR !in t.text {
      TokensNonEmpty(l.cc, word, t.text);
      NoSpaces(l.cc, word, t.text);
    }
  }

  // ------------------------------------------------------ which tokens have rows

  /** Tokens of a plain word that need no cleaning are indexed with the value. */
  lemma CleanTokenIsIndexed(l: Locale, value: string, word: string, t: string)
    requires WfLocale(l) && IsPlainWord(l, value, word) && t in TokenizeContent(l.cc, word)
    requires CleanToken(l.cc, t) == t
    ensures t in IndexedTokens(l, Some(value))
  {
    hide TokenizeContent, CleanToken;
    NormalizedWords(l, value);
    var normal := NormalizeValue(l, Some(value)).value;
    TokensNonEmpty(l.cc, word, t);
    TokenizeMonotone(l.cc, word, normal);
  }

  /** The alphanumeric part of a word needs no cleaning. */
  lemma AlnumIsClean(l: Locale, word: string)
    requires WfLocale(l)
    ensures CleanToken(l.cc, AlnumOnly(l.cc, word)) == AlnumOnly(l.cc, word)
  {
  }

  /** Every indexed token has been cleaned. */
  lemma IndexedIsClean(l: Locale, value: Option<string>, token: string)
    requires WfLocale(l) && token in IndexedTokens(l, value)
    ensures CleanToken(l.cc, token) == token
  {
    hide TokenizeContent, CleanToken;
    assert value.Some?;
    hide NormalizeValue;
    var normal := NormalizeValue(l, value).value;
    var t :| t in TokenizeContent(l.cc, normal) && token == CleanToken(l.cc, t);
    NormalTokenIsSpaceFree(l, value, t);
    CleanIdempotent(l.cc, t);
  }

  lemma NormalTokenIsSpaceFree(l: Locale, value: Option<string>, t: string)
    requires WfLocale(l) && value.Some? && t in TokenizeContent(l.cc, NormalizeValue(l, value).value)
    ensures SpaceFree(l.cc, t)
  {
    hide TokenizeContent;
    assert '.' in Symbols() && '-' in Symbols();
    forall c | c in t ensures !l.cc.space(c) {
      TokenChars(l.cc, NormalizeValue(l, value).value, t, c);
      if c in NormalizeValue(l, value).value {
        NormalizedChars(l, value.value, c);
      }
    }
  }

  /** At every reachable state each entry's token is clean, whatever its revision. */
  lemma {:induction false} EntriesAreClean(w: World, log: seq<Action>, e: Entry)
    requires WfLocale(w.locale) && IsRun(w, INITIAL, log) && e in After(w, INITIAL, log).entries
    ensures CleanToken(w.locale.cc, e.token) == e.token
    decreases |log|
  {
    hide CleanToken, WfLocale, DocEntries, IndexedTokens;
    var front, a := log[..|log| - 1], log[|log| - 1];
    if e in After(w, INITIAL, front).entries {
      EntriesAreClean(w, front, e);
    } else {
      DocEntriesOf(w, a.data, a.doc, After(w, INITIAL, front).nextRev, e);
      IndexedIsClean(w.locale, ValueOf(w, a.data, e.field), e.token);
    }
  }

  /** Text without white space that starts a clean token is clean itself. */
  lemma PrefixIsClean(cc: CharClass, t: string, token: string)
    requires WfChars(cc) && SpaceFree(cc, t) && t <= token && CleanToken(cc, token) == token
    ensures CleanToken(cc, t) == t
  {
    CleanHasShape(cc, token);
    StripSpaceFree(cc, t);
    hide WfChars, CleanToken, Strip;
    PrefixShape(t, token);
    StripThenClean(cc, t);
  }

  lemma PrefixShape(t: string, token: string)
    requires CleanShape(token) && t <= token
    ensures CleanPluses(t) == t && CleanHashes(t) == t
  {
    var n := TrailingPluses(token);
    var core := token[..|token| - n];
    TrailingArePluses(token);
    assert token == core + Pluses(n);
    if '#' in t {
      assert forall c :: c in t ==> c in token;
      assert t[0] == token[0] && t[0] != '#';
      assert t == token;
      ShapeFixed(token);
    } else if |t| <= |core| {
      assert t == core[..|t|] && '+' !in t by { assert forall c :: c in t ==> c in core; }
      NoPluses(t);
    } else {
      var k := |t| - |core|;
      assert t == core + Pluses(k);
      ShapeOf(core, k);
    }
  }

  /** The document d was last added with this value in the indexed field f, or with none where that is the default. */
  predicate HasValue(w: World, log: seq<Action>, d: int, f: string, value: string) {
    && f in w.schema && w.schema[f].indexed
    && var data := LastAdded(log, d);
       data.Some?
       && if f in data.value && data.value[f].Some? then data.value[f].value == value
          else w.schema[f].default == Some(value)
  }

  /** Entries of the current data are there. */
  lemma TokenHasRow(w: World, log: seq<Action>, q: Search, d: int, f: string, value: string, t: string) returns (r: Row)
    requires IsRun(w, INITIAL, log) && IsTableOf(q, After(w, INITIAL, log)) && HasValue(w, log, d, f, value)
    requires t in IndexedTokens(w.locale, Some(value))
    ensures r in q.rows && r.index == q.index && r.entry.doc == d && r.entry.token == t
  {
    hide IndexedTokens, After, IsRun;
    EntriesAreOfValue(w, log, d, f, t);
    r := Row(q.index, Entry(t, f, d, After(w, INITIAL, log).records[d].rev));
    assert r.entry in After(w, INITIAL, log).entries;
  }

  /** The circumstances: a reachable state, its table, and a document that has a plain word in an indexed field. */
  ghost predicate Setting(w: World, log: seq<Action>, q: Search, d: int, f: string, value: string, word: string) {
    && WfLocale(w.locale) && IsRun(w, INITIAL, log)
    && WfSearch(q) && q.l == w.locale && IsTableOf(q, After(w, INITIAL, log))
    && HasValue(w, log, d, f, value) && IsPlainWord(w.locale, value, word)
  }

  /** Some row of the document has a token that starts with the text. */
  predicate HasPrefixRow(q: Search, d: int, t: string) {
    exists r :: r in q.rows && r.index == q.index && r.entry.doc == d && t <= r.entry.token
  }

  predicate HasRow(q: Search, d: int, t: string) {
    exists r :: r in q.rows && r.index == q.index && r.entry.doc == d && r.entry.token == t
  }

  /** A token of the word has a row of the document, at its own or as a prefix, exactly when it is clean. */
  lemma RowIffClean(w: World, log: seq<Action>, q: Search, d: int, f: string, value: string, word: string, t: string)
    requires Setting(w, log, q, d, f, value, word) && t in TokenizeContent(w.locale.cc, word)
    ensures HasRow(q, d, t) <==> CleanToken(w.locale.cc, t) == t
    ensures HasPrefixRow(q, d, t) <==> CleanToken(w.locale.cc, t) == t
  {
    assert WfChars(w.locale.cc);
    hide TokenizeContent, CleanToken, WfLocale, WfChars, IsRun, After, Inv, WfSearch, IsPlainWord, IndexedTokens;
    hide HasValue;
    if CleanToken(w.locale.cc, t) == t {
      CleanTokenIsIndexed(w.locale, value, word, t);
      var r := TokenHasRow(w, log, q, d, f, value, t);
      assert t <= t;
    } else {
      forall r | r in q.rows && r.index == q.index && r.entry.doc == d ensures !(t <= r.entry.token) {
        assert r == Row(q.index, r.entry);
        EntriesAreClean(w, log, r.entry);
        WordTokenIsSpaceFree(w.locale, value, word, t);
        if t <= r.entry.token { PrefixIsClean(w.locale.cc, t, r.entry.token); }
      }
      assert t <= t;
    }
  }

  lemma WordTokenIsSpaceFree(l: Locale, value: string, word: string, t: string)
    requires WfLocale(l) && IsPlainWord(l, value, word) && t in TokenizeContent(l.cc, word)
    ensures SpaceFree(l.cc, t)
  {
    PlainWordIsNormal(l, value, word);
    hide TokenizeContent, IsPlainWord;
    assert '.' in Symbols() && '-' in Symbols();
    forall c | c in t ensures !l.cc.space(c) {
      TokenChars(l.cc, word, t, c);
    }
  }

  // -------------------------------------------------------------- what is found

  /** Rows are there for exactly the clean ones of the tokens. */
  predicate RowsAreClean(q: Search, d: int, tokens: set<string>) {
    forall t :: t in tokens ==> (HasRow(q, d, t) <==> CleanToken(q.l.cc, t) == t)
                                && (HasPrefixRow(q, d, t) <==> CleanToken(q.l.cc, t) == t)
  }

  lemma WantedIsClean(q: Search, d: int, b: seq<Term>, tokens: set<string>, r: Row)
    requires IsBranchOf(b, tokens) && RowsAreClean(q, d, tokens)
    requires r in q.rows && r.index == q.index && r.entry.doc == d && Wanted(q, [b], r.entry)
    ensures Clean(q.l.cc, tokens) != {}
  {
    hide CleanToken, Matches;
    var t :| t in b && Matches(q.o.startswith, t, r.entry);
    MatchesPrefix(q.o.startswith, t, r.entry);
    assert t.text in tokens && HasPrefixRow(q, d, t.text);
    assert t.text in Clean(q.l.cc, tokens);
  }

  lemma CleanIsWanted(q: Search, d: int, b: seq<Term>, tokens: set<string>) returns (r: Row)
    requires IsBranchOf(b, tokens) && RowsAreClean(q, d, tokens) && Clean(q.l.cc, tokens) != {}
    ensures r in q.rows && r.index == q.index && r.entry.doc == d && Wanted(q, [b], r.entry)
  {
    hide CleanToken, HasPrefixRow;
    var t :| t in Clean(q.l.cc, tokens);
    assert HasRow(q, d, t);
    r :| r in q.rows && r.index == q.index && r.entry.doc == d && r.entry.token == t;
    assert Term(Word, None, t) in b && Matches(q.o.startswith, Term(Word, None, t), r.entry);
    assert b in [b];
  }

  /** With any term sufficing, the document is found exactly when some token that stays is clean. */
  lemma AnyFindsIffSomeClean(q: Search, d: int, b: seq<Term>, tokens: set<string>)
    requires WfSearch(q) && !q.o.all && AllSound([b]) && IsBranchOf(b, tokens) && RowsAreClean(q, d, tokens)
    ensures TotalScores(q, Effective(q.o, [b])).Ok?
    ensures d in TotalScores(q, Effective(q.o, [b])).value <==> Clean(q.l.cc, tokens) != {}
  {
    hide WfSearch, AllSound, TotalScores, Effective, Clean, IsBranchOf, RowsAreClean, Wanted;
    AnyTermResult(q, [b], d);
    if r :| r in q.rows && r.index == q.index && r.entry.doc == d && Wanted(q, [b], r.entry) {
      WantedIsClean(q, d, b, tokens, r);
    } else if Clean(q.l.cc, tokens) != {} {
      var r := CleanIsWanted(q, d, b, tokens);
    }
  }

  /** Without startswith the found tokens are the clean ones. */
  lemma FoundAreClean(q: Search, d: int, b: seq<Term>, tokens: set<string>)
    requires WfSearch(q) && IsSound(b) && IsBranchOf(b, tokens) && RowsAreClean(q, d, tokens) && !q.o.startswith
    ensures Found(Hits(q, b), d) == Clean(q.l.cc, tokens)
  {
    hide WfSearch, IsSound, Found, Hits, CleanToken;
    forall f ensures f in Found(Hits(q, b), d) <==> f in Clean(q.l.cc, tokens) {
      FoundIff(q, b, d, f);
      if r, t :| r in q.rows && r.index == q.index && r.entry.doc == d && r.entry.token == f
                 && t in b && Matches(q.o.startswith, t, r.entry) {
        assert t.text == f && HasRow(q, d, f);
      }
      if f in Clean(q.l.cc, tokens) {
        var r :| r in q.rows && r.index == q.index && r.entry.doc == d && r.entry.token == f;
        assert Term(Word, None, f) in b && Matches(q.o.startswith, Term(Word, None, f), r.entry);
      }
    }
  }

  /** With startswith each searched token starts some found one exactly when all are clean. */
  lemma EachFoundIffAllClean(q: Search, d: int, b: seq<Term>, tokens: set<string>)
    requires WfSearch(q) && IsSound(b) && IsBranchOf(b, tokens) && RowsAreClean(q, d, tokens) && q.o.startswith
    ensures EachFound(tokens, Found(Hits(q, b), d)) <==> Clean(q.l.cc, tokens) == tokens
  {
    hide WfSearch, IsSound, Found, Hits, CleanToken;
    forall t | t in tokens
      ensures (exists f :: f in Found(Hits(q, b), d) && t <= f) <==> CleanToken(q.l.cc, t) == t
    {
      if f :| f in Found(Hits(q, b), d) && t <= f {
        FoundIff(q, b, d, f);
        assert HasPrefixRow(q, d, t);
      }
      if HasPrefixRow(q, d, t) {
        var r :| r in q.rows && r.index == q.index && r.entry.doc == d && t <= r.entry.token;
        assert Term(Word, None, t) in b && Matches(q.o.startswith, Term(Word, None, t), r.entry);
        FoundIff(q, b, d, r.entry.token);
      }
    }
  }

  /**
   With all terms required: every token that stays is clean; or just one of them is, and by chance that one has
   as many tokens as stay. The second can only happen when stop words are ignored.
   */
  predicate AllFound(cc: CharClass, tokens: set<string>) {
    var clean := Clean(cc, tokens);
    && tokens != {}
    && (clean == tokens || (|clean| == 1 && forall t :: t in clean ==> |TokenizeContent(cc, t)| == |tokens|))
  }

  lemma AllFindsIff(q: Search, d: int, b: seq<Term>, tokens: set<string>)
    requires WfSearch(q) && q.o.all && IsSound(b) && IsBranchOf(b, tokens) && RowsAreClean(q, d, tokens)
    requires q.o.startswith ==> (Clean(q.l.cc, tokens) == tokens <==> AllFound(q.l.cc, tokens))
    ensures TotalScores(q, Effective(q.o, [b])).Ok?
    ensures d in TotalScores(q, Effective(q.o, [b])).value <==> AllFound(q.l.cc, tokens)
  {
    BranchTexts(b, tokens);
    AllTermsAccept(q, b, d);
    hide WfSearch, IsSound, Found, Hits, Clean, BranchScores, TokenizeContent, IsBranchOf, RowsAreClean, EachFound;
    if q.o.startswith {
      EachFoundIffAllClean(q, d, b, tokens);
    } else {
      FoundAreClean(q, d, b, tokens);
    }
    TotalOk(q, [b]);
  }

  /** A branch without terms finds no document with an alphanumeric token. */
  lemma EmptyBranchFindsNot(q: Search, d: int, a: string)
    requires WfSearch(q) && q.o.all && !q.o.startswith && HasRow(q, d, a)
    requires SPACE !in a && SearchKeys.BAR !in a && AlnumOnly(q.l.cc, a) == a && a != ""
    ensures TotalScores(q, Effective(q.o, [[]])).Ok?
    ensures d !in TotalScores(q, Effective(q.o, [[]])).value
  {
    EmptyBranchSucceeds(q);
    WordIsToken(q.l.cc, a);
    var r :| r in q.rows && r.index == q.index && r.entry.doc == d && r.entry.token == a;
    assert r in Hits(q, []);
    var found := Found(Hits(q, []), d);
    assert a in found;
    hide TokenizeContent, Hits, WfSearch, AlnumOnly;
    assert !Outcome(q, [], d).accepted by {
      assert Texts([]) == {} && |found| != 0;
      if |found| == 1 {
        OnlyOne(found, a);
        assert |TokenizeContent(q.l.cc, a)| != 0;
      }
    }
    TotalOk(q, [[]]);
  }

  // ----------------------------------------------------------------- the theorem

  /** When a word's document is found: about the tokens of the word that stay, and nothing else. */
  predicate IsFound(l: Locale, word: string, stopwords: bool, all: bool) {
    if all then AllFound(l.cc, Staying(l, word, stopwords)) else Clean(l.cc, Staying(l, word, stopwords)) != {}
  }

  /** If stop words are matched, all tokens stay: any term will do always, and all are found iff all are clean. */
  lemma WithStopWords(l: Locale, value: string, word: string)
    requires WfLocale(l) && IsPlainWord(l, value, word)
    ensures IsFound(l, word, true, false)
    ensures IsFound(l, word, true, true) <==> forall t :: t in TokenizeContent(l.cc, word) ==> CleanToken(l.cc, t) == t
    ensures IsFound(l, word, true, true)
            <==> Clean(l.cc, Staying(l, word, true)) == Staying(l, word, true)
  {
    PlainWordIsNormal(l, value, word);
    var a, tokens := AlnumOnly(l.cc, word), TokenizeContent(l.cc, word);
    assert a != "" && SearchKeys.BAR !in word;
    hide TokenizeContent, CleanToken, AlnumOnly, WfLocale, IsPlainWord, AllFound;
    WordIsToken(l.cc, word);
    AlnumIsClean(l, word);
    AlnumIsItsToken(l, word);
    assert Staying(l, word, true) == tokens;
    AllFoundIff(l.cc, tokens, a);
  }

  lemma AllFoundIff(cc: CharClass, tokens: set<string>, a: string)
    requires a in tokens && CleanToken(cc, a) == a && TokenizeContent(cc, a) == {a}
    ensures AllFound(cc, tokens) <==> Clean(cc, tokens) == tokens
    ensures Clean(cc, tokens) == tokens <==> forall t :: t in tokens ==> CleanToken(cc, t) == t
    ensures Clean(cc, tokens) != {}
  {
    hide TokenizeContent, CleanToken;
    var clean := Clean(cc, tokens);
    assert a in clean;
    if |clean| == 1 {
      OnlyOne(clean, a);
      if |tokens| == 1 { OnlyOne(tokens, a); }
    }
  }

  lemma InnerPlusIsUnclean(cc: CharClass, word: string)
    requires '+' in word && word[|word| - 1] != '+'
    ensures CleanToken(cc, word) != word
  {
    CleanHasShape(cc, word);
    hide CleanToken;
    assert TrailingPluses(word) == 0 && word[..|word|] == word;
  }

  /** A word with a plus sign inside, as "a+b", is not found with all terms required: its token loses the sign. */
  lemma InnerPlusIsMissed(l: Locale, value: string, word: string)
    requires WfLocale(l) && IsPlainWord(l, value, word) && '+' in word && word[|word| - 1] != '+'
    ensures !IsFound(l, word, true, true)
  {
    PlainWordIsNormal(l, value, word);
    InnerPlusIsUnclean(l.cc, word);
    assert SPACE !in word && SearchKeys.BAR !in word && AlnumOnly(l.cc, word) != "";
    hide IsPlainWord, CleanToken, TokenizeContent, AlnumOnly, IsFound, WfLocale, Staying, Clean;
    WordIsToken(l.cc, word);
    WithStopWords(l, value, word);
  }

  /** The alphanumeric part of a word has no token but itself. */
  lemma AlnumIsItsToken(l: Locale, word: string)
    requires WfLocale(l) && AlnumOnly(l.cc, word) != ""
    ensures TokenizeContent(l.cc, AlnumOnly(l.cc, word)) == {AlnumOnly(l.cc, word)}
    ensures SPACE !in AlnumOnly(l.cc, word) && SearchKeys.BAR !in AlnumOnly(l.cc, word)
    ensures AlnumOnly(l.cc, AlnumOnly(l.cc, word)) == AlnumOnly(l.cc, word)
  {
    var a := AlnumOnly(l.cc, word);
    assert SearchKeys.BAR in Symbols() && '.' in Symbols() && '-' in Symbols();
    assert forall c :: c in a ==> l.cc.alnum(c);
    hide Symbols;
    AllAlnum(l.cc, a);
    WordIsToken(l.cc, a);
    hide AlnumOnly, TokenizeContent, TokenizeWords, Acronyms, WfLocale;
    OneWordTokens(l.cc, a, a);
    AlnumHasNoAcronyms(l.cc, a);
    NoMoreTokens(l.cc, a, a);
  }

  /**
   At every reachable state, a live document is found by searching verbatim for a word of one of its indexed
   fields - holding something alphanumeric and no separator, colon or quote - if and only if: with any term
   sufficing, some token of the word that stays is left alone by clean_token; with all terms required, every one
   is, or the single clean one happens to have as many tokens as stay. With startswith stop words always match.
   */
  lemma VerbatimWordFoundIff(w: World, log: seq<Action>, q: Search, d: int, f: string, value: string, word: string,
                             stopwords: bool, branches: seq<seq<Term>>)
    requires Setting(w, log, q, d, f, value, word)
    requires ReadsAll(w.locale, word, stopwords, branches) && (q.o.startswith ==> stopwords)
    ensures Readable(w.locale, word) && TotalScores(q, Effective(q.o, branches)).Ok?
    ensures d in Results(q, After(w, INITIAL, log), branches) <==> IsFound(w.locale, word, stopwords, q.o.all)
  {
    var l, tokens := w.locale, Staying(w.locale, word, stopwords);
    RecordsAreLastAdded(w, log, d);
    hide After, IsRun, WfLocale, IsPlainWord, WfSearch, HasValue, IsTableOf, TokenizeContent, ReadsAll, Readable;
    PlainWordBranch(l, value, word, stopwords, branches);
    var b := branches[0];
    assert branches == [b];
    StayingRows(w, log, q, d, f, value, word, stopwords);
    BranchTexts(b, tokens);
    hide Setting, IsBranchOf, RowsAreClean, Staying, Clean, AllFound, TotalScores, Effective;
    if b == [] {
      StopWordsOnly(w, log, q, d, f, value, word, stopwords);
    } else {
      StayingIsSound(l, word, stopwords, b);
      if q.o.all {
        if stopwords { WithStopWords(l, value, word); }
        AllFindsIff(q, d, b, tokens);
      } else {
        AnyFindsIffSomeClean(q, d, b, tokens);
      }
    }
  }

  lemma StayingRows(w: World, log: seq<Action>, q: Search, d: int, f: string, value: string, word: string,
                    stopwords: bool)
    requires Setting(w, log, q, d, f, value, word)
    ensures RowsAreClean(q, d, Staying(w.locale, word, stopwords))
  {
    hide HasRow, HasPrefixRow, CleanToken, TokenizeContent, Stays;
    forall t | t in Staying(w.locale, word, stopwords)
      ensures HasRow(q, d, t) <==> CleanToken(q.l.cc, t) == t
      ensures HasPrefixRow(q, d, t) <==> CleanToken(q.l.cc, t) == t
    {
      RowIffClean(w, log, q, d, f, value, word, t);
    }
  }

  lemma StayingIsSound(l: Locale, word: string, stopwords: bool, b: seq<Term>)
    requires WfLocale(l) && b != [] && IsBranchOf(b, Staying(l, word, stopwords))
    ensures IsSound(b) && AllSound([b])
  {
    hide TokenizeContent, Stays, WfLocale;
    TokensAreSound(l, word, b, Staying(l, word, stopwords));
  }

  lemma NoSingles()
    ensures Singles([[]]) == []
  {
    var branches: seq<seq<Term>> := [[]];
    assert branches[..0] == [];
  }

  /** If every token is a stop word and these are ignored, nothing is found. */
  lemma StopWordsOnly(w: World, log: seq<Action>, q: Search, d: int, f: string, value: string, word: string,
                      stopwords: bool)
    requires Setting(w, log, q, d, f, value, word) && (q.o.startswith ==> stopwords)
    requires Staying(w.locale, word, stopwords) == {}
    ensures TotalScores(q, Effective(q.o, [[]])).Ok?
    ensures d !in TotalScores(q, Effective(q.o, [[]])).value
    ensures !IsFound(w.locale, word, stopwords, q.o.all)
  {
    var l, a := w.locale, AlnumOnly(w.locale.cc, word);
    if stopwords {
      WithStopWords(l, value, word);
    }
    PlainWordIsNormal(l, value, word);
    WordIsToken(l.cc, word);
    AlnumIsClean(l, word);
    AlnumIsItsToken(l, word);
    RowIffClean(w, log, q, d, f, value, word, a);
    hide Setting, TokenizeContent, AlnumOnly, CleanToken, WfSearch;
    if q.o.all {
      EmptyBranchFindsNot(q, d, a);
    } else {
      NoSingles();
    }
  }

  /** Any clean word that is no stop word is found even if its alphanumeric part is one, as "i.t." with "it". */
  lemma CleanWordIsFound(l: Locale, value: string, word: string)
    requires WfLocale(l) && IsPlainWord(l, value, word) && CleanToken(l.cc, word) == word && !l.isStop(word)
    ensures IsFound(l, word, false, false)
  {
    PlainWordIsNormal(l, value, word);
    hide TokenizeContent, CleanToken;
    WordIsToken(l.cc, word);
    assert word in Clean(l.cc, Staying(l, word, false));
  }

  // ------------------------------------------------- words with plus signs and hashes

  /**
   Names like "c++" and notes like "c#": trailing plus signs, or a hash behind one of the notes, are left alone,
   so that these words are found with all terms required.
   */
  lemma NamesAndNotesAreFound(l: Locale, core: string, tail: string, value: string)
    requires WfLocale(l) && IsPlainWord(l, value, core + tail)
    requires HasTail(l, core, tail, '+') || (HasTail(l, core, tail, '#') && |core| == 1 == |tail| && core[0] in NOTES)
    ensures IsFound(l, core + tail, true, true)
  {
    WithStopWords(l, value, core + tail);
    forall t | t in TokenizeContent(l.cc, core + tail) ensures CleanToken(l.cc, t) == t {
      TailTokens(l, core, tail, if HasTail(l, core, tail, '+') then '+' else '#', t);
      NameIsClean(l, core, tail);
    }
  }
}
