/**
 Reading a query string, as _tokenize_query_string of djangae/contrib/search/query.py does: branches divided by
 " or ", terms divided by spaces outside quotes, optional field names, expansion into tokens and stop words.
 */
module SearchQuery {
  import opened Common
  import opened Strings
  import opened Tokens
  import opened Fields

  const OR := " or "

  const DOUBLE_QUOTE := '"'

  const COLON := ':'

  datatype QueryError = IndexError | NotImplemented

  /** A piece of the query before it is classified. */
  datatype Raw = Raw(field: Option<string>, text: string)

  datatype Kind = Word | Exact

  datatype Term = Term(kind: Kind, field: Option<string>, text: string)

  // ----------------------------------------------------------------- the text scan

  /** s.split(" or ") */
  function SplitOr(s: string): (r: seq<string>)
    ensures |r| >= 1
  {
    if |s| < |OR| then [s]
    else if s[..|OR|] == OR then [""] + SplitOr(s[|OR|..])
    else
      var rest := SplitOr(s[1..]);
      [[s[0]] + rest[0]] + rest[1..]
  }

  /** " or ".join(parts) */
  function JoinOr(parts: seq<string>): string {
    if parts == [] then ""
    else if |parts| == 1 then parts[0]
    else parts[0] + OR + JoinOr(parts[1..])
  }

  predicate OrAt(s: string, i: int) {
    0 <= i <= |s| - |OR| && s[i..i + |OR|] == OR
  }

  lemma OrAtTail(c: char, s: string, i: int)
    requires i != 0
    ensures OrAt([c] + s, i) <==> OrAt(s, i - 1)
  {
    if 0 < i <= |s| + 1 - |OR| {
      assert ([c] + s)[i..i + |OR|] == s[i - 1..i - 1 + |OR|];
    }
  }

  /** The parts joined give the text back, and none of them can be divided further. */
  lemma {:induction false} SplitOrJoins(s: string)
    ensures JoinOr(SplitOr(s)) == s
    ensures forall w, i :: w in SplitOr(s) ==> !OrAt(w, i)
  {
    var parts := SplitOr(s);
    if |s| >= |OR| {
      if OrAt(s, 0) {
        SplitOrJoins(s[|OR|..]);
        assert parts[1..] == SplitOr(s[|OR|..]) && s == OR + s[|OR|..];
      } else {
        var rest := SplitOr(s[1..]);
        SplitOrJoins(s[1..]);
        assert parts[0] == [s[0]] + rest[0] && parts[1..] == rest[1..];
        assert JoinOr(parts) == [s[0]] + JoinOr(rest);
        assert rest[0] <= JoinOr(rest);
        forall i ensures OrAt(parts[0], i) ==> if i == 0 then OrAt(s, 0) else OrAt(rest[0], i - 1) {
          if i != 0 { OrAtTail(s[0], rest[0], i); }
        }
        assert forall w :: w in rest[1..] ==> w in rest;
      }
    }
  }

  /** No " or " starts inside the text, even if one follows. */
  predicate OrFirstBehind(a: string) {
    forall i :: 0 <= i < |a| ==> !OrAt(a + OR, i)
  }

  lemma OrFirstTail(a: string)
    requires a != "" && OrFirstBehind(a)
    ensures OrFirstBehind(a[1..])
  {
    forall i | 0 <= i < |a[1..]| ensures !OrAt(a[1..] + OR, i) {
      assert a + OR == [a[0]] + (a[1..] + OR);
      OrAtTail(a[0], a[1..] + OR, i + 1);
    }
  }

  /** The text is divided at the first " or ". */
  lemma {:induction false} SplitOrFirst(a: string, b: string)
    requires OrFirstBehind(a)
    ensures SplitOr(a + OR + b) == [a] + SplitOr(b)
  {
    var s := a + OR + b;
    if a == "" {
      assert s == OR + b;
    } else {
      assert !OrAt(a + OR, 0) && s[..|OR|] == (a + OR)[..|OR|];
      assert s[1..] == a[1..] + OR + b;
      OrFirstTail(a);
      SplitOrFirst(a[1..], b);
      assert SplitOr(s) == [[s[0]] + SplitOr(s[1..])[0]] + SplitOr(s[1..])[1..];
      assert [s[0]] + a[1..] == a;
    }
  }

  lemma {:induction false} SplitOrNone(a: string)
    requires OrFirstBehind(a)
    ensures SplitOr(a) == [a]
  {
    if |a| >= |OR| {
      assert !OrAt(a + OR, 0) && a[..|OR|] == (a + OR)[..|OR|];
      OrFirstTail(a);
      SplitOrNone(a[1..]);
      assert SplitOr(a) == [[a[0]] + SplitOr(a[1..])[0]] + SplitOr(a[1..])[1..];
      assert [a[0]] + a[1..] == a;
    }
  }

  /** A single symbol other than a quote or a colon is dropped. */
  predicate IsDropped(text: string) {
    |text| == 1 && text[0] in Symbols() && text[0] != DOUBLE_QUOTE && text[0] != COLON
  }

  /** The length of the text before the first colon. */
  function FieldLength(s: string): (n: nat)
    requires COLON in s
    ensures n < |s| && s[n] == COLON && COLON !in s[..n]
  {
    if s[0] == COLON then 0
    else
      var n := 1 + FieldLength(s[1..]);
      assert s[..n] == [s[0]] + s[1..][..n - 1];
      n
  }

  /** finalize_token */
  function Finalize(token: string): seq<Raw> {
    if token == "" then []
    else
      var raw := if COLON in token
                 then Raw(Some(token[..FieldLength(token)]), token[FieldLength(token) + 1..])
                 else Raw(None, token);
      if IsDropped(raw.text) then [] else [raw]
  }

  /** What is left to read of a branch, after `token` has been collected. */
  function Scan(s: string, token: string, quoted: bool): seq<Raw> {
    if s == "" then Finalize(token)
    else if s[0] == SPACE && !quoted then Finalize(token) + Scan(s[1..], "", quoted)
    else Scan(s[1..], token + [s[0]], if s[0] == DOUBLE_QUOTE then !quoted else quoted)
  }

  method ScanLoop(branchText: string) returns (r: seq<Raw>)
    ensures r == Scan(branchText, "", false)
  {
    hide Finalize;
    r := [];
    var token, quoted := "", false;
    for i := 0 to |branchText|
      invariant r + Scan(branchText[i..], token, quoted) == Scan(branchText, "", false)
    {
      var c := branchText[i];
      assert branchText[i..][1..] == branchText[i + 1..];
      if c == SPACE && !quoted {
        r := r + Finalize(token);
        token := "";
      } else {
        token := token + [c];
      }
      if c == DOUBLE_QUOTE {
        quoted := !quoted;
      }
    }
    assert branchText[|branchText|..] == "";
    r := r + Finalize(token);
  }

  function FinalizeAll(tokens: seq<string>): seq<Raw> {
    if tokens == [] then [] else Finalize(tokens[0]) + FinalizeAll(tokens[1..])
  }

  /** Without quotes, a branch is the words between its spaces. */
  lemma {:induction false} ScanUnquoted(s: string, token: string)
    requires DOUBLE_QUOTE !in s && SPACE !in token
    ensures Scan(s, token, false) == FinalizeAll(Split(token + s, SPACE))
  {
    hide Finalize;
    if s == "" {
      assert token + s == token;
      SplitWhole(token, SPACE);
      assert FinalizeAll([token]) == Finalize(token) + FinalizeAll([token][1..]);
    } else if s[0] == SPACE {
      assert token + s == token + [SPACE] + s[1..];
      SplitFirst(token, SPACE, s[1..]);
      ScanUnquoted(s[1..], "");
      assert "" + s[1..] == s[1..];
      assert ([token] + Split(s[1..], SPACE))[1..] == Split(s[1..], SPACE);
    } else {
      ScanUnquoted(s[1..], token + [s[0]]);
      assert token + [s[0]] + s[1..] == token + s;
    }
  }

  /** The pieces between the spaces outside quotes, after `token` has been collected. */
  function Pieces(s: string, token: string, quoted: bool): seq<string> {
    if s == "" then [token]
    else if s[0] == SPACE && !quoted then [token] + Pieces(s[1..], "", quoted)
    else Pieces(s[1..], token + [s[0]], if s[0] == DOUBLE_QUOTE then !quoted else quoted)
  }

  lemma {:induction false} PiecesExist(s: string, token: string, quoted: bool)
    ensures Pieces(s, token, quoted) != []
    decreases s
  {
    if s != "" && !(s[0] == SPACE && !quoted) {
      PiecesExist(s[1..], token + [s[0]], if s[0] == DOUBLE_QUOTE then !quoted else quoted);
    }
  }

  /** Joined by spaces they are the text again. */
  lemma {:induction false} PiecesJoin(s: string, token: string, quoted: bool)
    ensures Join(Pieces(s, token, quoted), SPACE) == token + s
    decreases s
  {
    if s == "" {
      assert token + s == token;
    } else if s[0] == SPACE && !quoted {
      PiecesExist(s[1..], "", quoted);
      PiecesJoin(s[1..], "", quoted);
      var rest := Pieces(s[1..], "", quoted);
      assert ([token] + rest)[1..] == rest && "" + s[1..] == s[1..];
      assert token + [SPACE] + s[1..] == token + s;
    } else {
      PiecesJoin(s[1..], token + [s[0]], if s[0] == DOUBLE_QUOTE then !quoted else quoted);
      assert token + [s[0]] + s[1..] == token + s;
    }
  }

  /** A branch is read piece by piece. */
  lemma {:induction false} ScanIsPieces(s: string, token: string, quoted: bool)
    ensures Scan(s, token, quoted) == FinalizeAll(Pieces(s, token, quoted))
    decreases s
  {
    hide Finalize;
    if s == "" {
      assert FinalizeAll([token]) == Finalize(token) + FinalizeAll([token][1..]);
    } else if s[0] == SPACE && !quoted {
      ScanIsPieces(s[1..], "", quoted);
      assert ([token] + Pieces(s[1..], "", quoted))[1..] == Pieces(s[1..], "", quoted);
    } else {
      ScanIsPieces(s[1..], token + [s[0]], if s[0] == DOUBLE_QUOTE then !quoted else quoted);
    }
  }

  /** Text inside quotes is kept in one piece, spaces included. */
  lemma {:induction false} ScanQuoted(s: string, token: string)
    requires DOUBLE_QUOTE !in s
    ensures Scan(s + [DOUBLE_QUOTE], token, true) == Finalize(token + s + [DOUBLE_QUOTE])
  {
    hide Finalize;
    if s == "" {
      assert s + [DOUBLE_QUOTE] == [DOUBLE_QUOTE] && [DOUBLE_QUOTE][1..] == "";
      assert token + s + [DOUBLE_QUOTE] == token + [DOUBLE_QUOTE];
    } else {
      assert (s + [DOUBLE_QUOTE])[1..] == s[1..] + [DOUBLE_QUOTE];
      ScanQuoted(s[1..], token + [s[0]]);
      assert token + [s[0]] + s[1..] + [DOUBLE_QUOTE] == token + s + [DOUBLE_QUOTE];
    }
  }

  // ------------------------------------------------------- classification, expansion

  function StripQuotesLeft(s: string): (r: string)
    ensures forall c :: c in r ==> c in s
  {
    if s != "" && s[0] == DOUBLE_QUOTE then StripQuotesLeft(s[1..]) else s
  }

  function StripQuotesRight(s: string): (r: string)
    ensures forall c :: c in r ==> c in s
  {
    if s != "" && s[|s| - 1] == DOUBLE_QUOTE then StripQuotesRight(s[..|s| - 1]) else s
  }

  /** Quoted text is an exact phrase; an empty text has no first character to look at. */
  function Classify(raw: Raw): Result<Term, QueryError> {
    if raw.text == "" then Err(IndexError)
    else if raw.text[0] == DOUBLE_QUOTE && raw.text[|raw.text| - 1] == DOUBLE_QUOTE
    then Ok(Term(Exact, raw.field, StripQuotesRight(StripQuotesLeft(raw.text))))
    else Ok(Term(Word, raw.field, raw.text))
  }

  predicate Classifiable(raws: seq<Raw>) {
    forall i :: 0 <= i < |raws| ==> raws[i].text != ""
  }

  function ClassifyAll(raws: seq<Raw>): (r: seq<Term>)
    requires Classifiable(raws)
    ensures |r| == |raws|
  {
    seq(|raws|, i requires 0 <= i < |raws| => Classify(raws[i]).value)
  }

  function WordTerms(field: Option<string>, tokens: set<string>): set<Term> {
    set x | x in tokens :: Term(Word, field, x)
  }

  /** A word of several tokens becomes one term for each of them. */
  function Expand(cc: CharClass, t: Term): set<Term> {
    if t.kind == Exact || |TokenizeContent(cc, t.text)| <= 1 then {t}
    else WordTerms(t.field, TokenizeContent(cc, t.text))
  }

  function ExpandAll(cc: CharClass, terms: seq<Term>): multiset<Term> {
    if terms == [] then multiset{}
    else ExpandAll(cc, terms[..|terms| - 1]) + multiset(Expand(cc, terms[|terms| - 1]))
  }

  /** Whether a term stays when stop words are not matched. */
  predicate Stays(l: Locale, stopwords: bool, t: Term) {
    stopwords || (t.text != "" && !l.isStop(t.text))
  }

  lemma WordTermsNext(field: Option<string>, tokens: set<string>, x: string)
    requires x !in tokens
    ensures multiset(WordTerms(field, tokens + {x}))
            == multiset(WordTerms(field, tokens)) + multiset{Term(Word, field, x)}
  {
  }

  lemma NoWordTerms(field: Option<string>)
    ensures WordTerms(field, {}) == {}
  {
  }

  /** The expansion of one word, spaces removed from its tokens, in some order. */
  method ExpandOne(cc: CharClass, t: Term, tokens: set<string>) returns (r: seq<Term>)
    requires tokens == TokenizeContent(cc, t.text)
    ensures |r| == |tokens| && multiset(r) == multiset(WordTerms(t.field, tokens))
  {
    hide TokenizeContent, WordTerms;
    r := [];
    var rest := tokens;
    NoWordTerms(t.field);
    assert tokens - rest == {};
    while rest != {}
      invariant rest <= tokens && |r| + |rest| == |tokens|
      invariant multiset(r) == multiset(WordTerms(t.field, tokens - rest))
      decreases rest
    {
      var x :| x in rest;
      NoSpaces(cc, t.text, x);
      WordTermsNext(t.field, tokens - rest, x);
      assert tokens - (rest - {x}) == tokens - rest + {x};
      r := r + [Term(Word, t.field, Remove(x, SPACE))];
      rest := rest - {x};
    }
    assert tokens - rest == tokens;
  }

  /** Putting one term in place of the i-th of the first n, and further ones at the end. */
  lemma ReplaceTerm(r: seq<Term>, n: nat, i: nat, first: Term, more: seq<Term>)
    requires i < n <= |r|
    ensures var q := r[i := first] + more;
            && multiset(q[..i + 1]) + multiset(q[n..])
               == multiset(r[..i]) + multiset(r[n..]) + multiset([first] + more)
            && q[i + 1..n] == r[i + 1..n]
  {
    var q := r[i := first] + more;
    assert q[..i + 1] == r[..i] + [first] && q[n..] == r[n..] + more;
  }

  /** One turn of the loop: expands the i-th of the first n terms in place. */
  method ExpandAt(cc: CharClass, r: seq<Term>, n: nat, i: nat) returns (q: seq<Term>)
    requires i < n <= |r|
    ensures |q| >= n && q[i + 1..n] == r[i + 1..n]
    ensures multiset(q[..i + 1]) + multiset(q[n..])
            == multiset(r[..i]) + multiset(r[n..]) + multiset(Expand(cc, r[i]))
  {
    hide TokenizeContent, WordTerms;
    var tokens := TokenizeContentLoop(cc, r[i].text);
    if r[i].kind == Word && |tokens| > 1 {
      var expanded := ExpandOne(cc, r[i], tokens);
      assert [expanded[0]] + expanded[1..] == expanded;
      ReplaceTerm(r, n, i, expanded[0], expanded[1..]);
      q := r[i := expanded[0]] + expanded[1..];
    } else {
      ReplaceTerm(r, n, i, r[i], []);
      assert r[i := r[i]] + [] == r && [r[i]] + [] == [r[i]] && multiset({r[i]}) == multiset{r[i]};
      q := r;
    }
  }

  /** The loop that expands the words of a branch in place. */
  method ExpandLoop(cc: CharClass, terms: seq<Term>) returns (r: seq<Term>)
    ensures multiset(r) == ExpandAll(cc, terms)
  {
    hide Expand;
    var n := |terms|;
    r := terms;
    for i := 0 to n
      invariant |r| >= n && r[i..n] == terms[i..]
      invariant multiset(r[..i]) + multiset(r[n..]) == ExpandAll(cc, terms[..i])
    {
      assert r[i] == terms[i] && terms[i..][1..] == terms[i + 1..] == r[i + 1..n] by {
        assert r[i..n][0] == terms[i..][0] && r[i..n][1..] == terms[i..][1..];
      }
      assert terms[..i + 1][..i] == terms[..i];
      r := ExpandAt(cc, r, n, i);
    }
    assert terms[..n] == terms && r == r[..n] + r[n..];
  }

  lemma NoSpaces(cc: CharClass, content: string, t: string)
    requires t in TokenizeContent(cc, content)
    ensures SPACE !in t && BAR !in t && Remove(t, SPACE) == t
  {
    if SPACE in t { TokenChars(cc, content, t, SPACE); }
    if BAR in t { TokenChars(cc, content, t, BAR); }
  }

  // ------------------------------------------------------------------- the whole query

  /** The terms listed for a branch are, in some order, those that stay of its expansion. */
  ghost predicate Reads(l: Locale, text: string, stopwords: bool, branch: seq<Term>) {
    var raws := Scan(text, "", false);
    && Classifiable(raws)
    && forall t :: multiset(branch)[t] == if Stays(l, stopwords, t) then ExpandAll(l.cc, ClassifyAll(raws))[t] else 0
  }

  ghost predicate ReadsAll(l: Locale, query: string, stopwords: bool, branches: seq<seq<Term>>) {
    var texts := SplitOr(Lower(l, query));
    |branches| == |texts| && forall i :: 0 <= i < |texts| ==> Reads(l, texts[i], stopwords, branches[i])
  }

  /** No branch of the query has a field name with nothing behind it. */
  predicate Readable(l: Locale, query: string) {
    forall text :: text in SplitOr(Lower(l, query)) ==> Classifiable(Scan(text, "", false))
  }

  method ClassifyLoop(raws: seq<Raw>) returns (r: Result<seq<Term>, QueryError>)
    ensures r == if Classifiable(raws) then Ok(ClassifyAll(raws)) else Err(IndexError)
  {
    var terms: seq<Term> := [];
    for i := 0 to |raws|
      invariant Classifiable(raws[..i]) && terms == ClassifyAll(raws[..i])
    {
      var c := Classify(raws[i]);
      if c.Err? {
        return Err(c.error);
      }
      terms := terms + [c.value];
    }
    assert raws[..|raws|] == raws;
    r := Ok(terms);
  }

  method KeepLoop(l: Locale, terms: seq<Term>, stopwords: bool) returns (r: seq<Term>)
    ensures forall t :: multiset(r)[t] == if Stays(l, stopwords, t) then multiset(terms)[t] else 0
  {
    if stopwords {
      return terms;
    }
    r := [];
    for i := 0 to |terms|
      invariant forall t :: multiset(r)[t] == if Stays(l, stopwords, t) then multiset(terms[..i])[t] else 0
    {
      assert terms[..i + 1] == terms[..i] + [terms[i]];
      if terms[i].text != "" && !l.isStop(terms[i].text) {
        r := r + [terms[i]];
      }
    }
    assert terms[..|terms|] == terms;
  }

  /** _tokenize_query_string */
  method TokenizeQueryString(l: Locale, query: string, stopwords: bool)
    returns (r: Result<seq<seq<Term>>, QueryError>)
    ensures r.Err? <==> !Readable(l, query)
    ensures r.Err? ==> r.error == IndexError
    ensures r.Ok? ==> ReadsAll(l, query, stopwords, r.value)
  {
    hide Scan, Classifiable, ClassifyAll, ExpandAll, SplitOr, Stays;
    var texts := SplitOr(Lower(l, query));
    var branches: seq<seq<Term>> := [];
    for i := 0 to |texts|
      invariant |branches| == i
      invariant forall k :: 0 <= k < i ==> Reads(l, texts[k], stopwords, branches[k])
    {
      var raws := ScanLoop(texts[i]);
      var classified := ClassifyLoop(raws);
      if classified.Err? {
        return Err(classified.error);
      }
      var expanded := ExpandLoop(l.cc, classified.value);
      var kept := KeepLoop(l, expanded, stopwords);
      assert Reads(l, texts[i], stopwords, kept);
      branches := branches + [kept];
    }
    r := Ok(branches);
  }

  // ------------------------------------------------------------------------ properties

  /** A field name, its colon, and nothing behind it. */
  predicate FieldAlone(w: string) {
    COLON in w && FieldLength(w) == |w| - 1
  }

  /** Reading a branch fails exactly when, between spaces outside quotes, a field name is followed by nothing. */
  lemma FailsIffFieldAlone(text: string)
    ensures !Classifiable(Scan(text, "", false)) <==> exists w :: w in Pieces(text, "", false) && FieldAlone(w)
  {
    ScanIsPieces(text, "", false);
    AllClassifiable(Pieces(text, "", false));
  }

  lemma ScanOneWord(text: string)
    requires SPACE !in text && DOUBLE_QUOTE !in text
    ensures Scan(text, "", false) == Finalize(text)
  {
    hide Finalize;
    assert "" + text == text;
    ScanUnquoted(text, "");
    SplitWhole(text, SPACE);
    assert FinalizeAll([text]) == Finalize(text) + FinalizeAll([text][1..]);
  }

  /** A symbol alone is dropped, unless it is a quote or a colon. */
  lemma SymbolAlone(c: char)
    requires c in Symbols() && c != DOUBLE_QUOTE && c != COLON
    ensures Scan([c], "", false) == []
  {
    assert SPACE !in Symbols();
    hide Symbols;
    ScanOneWord([c]);
  }

  /** A field name, a colon and a text without spaces and quotes: the text is looked for in that field. */
  lemma FieldWord(name: string, text: string)
    requires COLON !in name && SPACE !in name + text && DOUBLE_QUOTE !in name + text && text != "" && !IsDropped(text)
    ensures Scan(name + [COLON] + text, "", false) == [Raw(Some(name), text)]
    ensures ClassifyAll([Raw(Some(name), text)]) == [Term(Word, Some(name), text)]
  {
    var s := name + [COLON] + text;
    hide IsDropped;
    assert text[0] in text;
    FieldLengthOf(name, text);
    assert s[..|name|] == name && s[|name| + 1..] == text && s[|name|] == COLON;
    assert forall c :: c in s ==> c in name + text || c == COLON;
    ScanOneWord(s);
  }

  lemma {:induction false} FieldLengthOf(name: string, rest: string)
    requires COLON !in name
    ensures COLON in name + [COLON] + rest && FieldLength(name + [COLON] + rest) == |name|
  {
    var s := name + [COLON] + rest;
    assert s[|name|] == COLON;
    if name != "" {
      assert s[1..] == name[1..] + [COLON] + rest;
      FieldLengthOf(name[1..], rest);
    }
  }

  function Quoted(text: string): string {
    "\"" + text + "\""
  }

  /** Text that only starts or only ends with a quote is a word, and keeps the quote. */
  lemma HalfQuoted(field: Option<string>, text: string)
    requires text != "" && (text[0] != '"' || text[|text| - 1] != '"')
    ensures Classify(Raw(field, text)) == Ok(Term(Word, field, text))
  {
  }

  /** Text in quotes is an exact phrase, spaces included. */
  lemma QuotedPhrase(text: string)
    requires DOUBLE_QUOTE !in text && COLON !in text
    ensures Scan(Quoted(text), "", false) == [Raw(None, Quoted(text))]
    ensures ClassifyAll([Raw(None, Quoted(text))]) == [Term(Exact, None, text)]
  {
    var s := Quoted(text);
    assert s[1..] == text + [DOUBLE_QUOTE] && "" + [s[0]] == [DOUBLE_QUOTE];
    ScanQuoted(text, [DOUBLE_QUOTE]);
    assert COLON !in s;
    QuotesStripped(text);
  }

  lemma QuotesStripped(text: string)
    requires DOUBLE_QUOTE !in text
    ensures StripQuotesRight(StripQuotesLeft(Quoted(text))) == text
  {
    var s := Quoted(text);
    assert s[1..] == text + [DOUBLE_QUOTE];
    if text == "" {
      assert StripQuotesLeft(s[1..]) == "";
    } else {
      var r := text + [DOUBLE_QUOTE];
      assert r[0] in text && r[..|r| - 1] == text && text[|text| - 1] in text;
    }
  }

  /** The terms a word is expanded to keep its field. */
  lemma ExpandKeepsField(cc: CharClass, t: Term, x: Term)
    requires x in Expand(cc, t)
    ensures x.field == t.field && x.kind == t.kind
    ensures x == t || (t.kind == Word && x.text in TokenizeContent(cc, t.text))
  {
    hide TokenizeContent;
  }

  /** A field name and its colon are not readable, as in "name:". */
  lemma FieldAloneFails(l: Locale, name: string)
    requires COLON !in name && SPACE !in name && DOUBLE_QUOTE !in name && Lower(l, name + [COLON]) == name + [COLON]
    ensures !Readable(l, name + [COLON])
  {
    var text := name + [COLON];
    assert text[|name|] == COLON && FieldAlone(text);
    hide Lower, Scan, Finalize, FieldAlone, Classifiable, SplitOr;
    SplitOrWhole(text);
    ScanOneWord(text);
    OneClassifiable(text);
    assert text in SplitOr(Lower(l, text));
  }

  lemma {:induction false} AllClassifiable(words: seq<string>)
    ensures !Classifiable(FinalizeAll(words)) <==> exists w :: w in words && FieldAlone(w)
  {
    if words != [] {
      OneClassifiable(words[0]);
      hide Classifiable, FieldAlone, Finalize;
      AllClassifiable(words[1..]);
      ClassifiableConcat(Finalize(words[0]), FinalizeAll(words[1..]));
      assert words == [words[0]] + words[1..];
    }
  }

  lemma OneClassifiable(w: string)
    ensures !Classifiable(Finalize(w)) <==> FieldAlone(w)
  {
    hide Symbols;
    if FieldAlone(w) {
      assert Finalize(w)[0].text == "";
    }
  }

  lemma ClassifiableConcat(a: seq<Raw>, b: seq<Raw>)
    ensures Classifiable(a + b) <==> Classifiable(a) && Classifiable(b)
  {
    if Classifiable(a + b) {
      assert forall i :: 0 <= i < |a| ==> (a + b)[i] == a[i];
      assert forall i :: 0 <= i < |b| ==> (a + b)[|a| + i] == b[i];
    }
  }

  lemma {:induction false} ExpandAllOf(cc: CharClass, terms: seq<Term>, t: Term)
    ensures t in ExpandAll(cc, terms) <==> exists c :: c in terms && t in Expand(cc, c)
  {
    hide Expand;
    if terms != [] {
      var n := |terms| - 1;
      ExpandAllOf(cc, terms[..n], t);
      assert terms == terms[..n] + [terms[n]];
    }
  }

  /** Where a term of a branch comes from. */
  lemma TermOrigin(l: Locale, text: string, stopwords: bool, branch: seq<Term>, t: Term)
    requires Reads(l, text, stopwords, branch)
    ensures t in branch
            <==> Stays(l, stopwords, t)
                 && exists c :: c in ClassifyAll(Scan(text, "", false)) && t in Expand(l.cc, c)
  {
    hide Scan, ClassifyAll, Stays, Expand;
    var terms := ClassifyAll(Scan(text, "", false));
    ExpandAllOf(l.cc, terms, t);
    assert t in branch <==> multiset(branch)[t] > 0;
    assert multiset(branch)[t] == if Stays(l, stopwords, t) then ExpandAll(l.cc, terms)[t] else 0;
  }

  lemma {:induction false} SplitOrChars(s: string, w: string, c: char)
    requires w in SplitOr(s) && c in w
    ensures c in s
  {
    if |s| >= |OR| {
      if s[..|OR|] == OR {
        SplitOrChars(s[|OR|..], w, c);
      } else {
        var rest := SplitOr(s[1..]);
        if w in rest[1..] {
          SplitOrChars(s[1..], w, c);
        } else if c != s[0] {
          SplitOrChars(s[1..], rest[0], c);
        }
      }
    }
  }

  lemma {:induction false} ScanChars(s: string, token: string, quoted: bool, raw: Raw, c: char)
    requires raw in Scan(s, token, quoted) && c in raw.text
    ensures c in s || c in token
    decreases s
  {
    if s == "" || raw in Finalize(token) {
    } else if s[0] == SPACE && !quoted {
      ScanChars(s[1..], "", quoted, raw, c);
    } else {
      ScanChars(s[1..], token + [s[0]], if s[0] == DOUBLE_QUOTE then !quoted else quoted, raw, c);
    }
  }

  lemma ClassifiedIsSound(text: string, c: Term, x: char)
    requires Classifiable(Scan(text, "", false)) && c in ClassifyAll(Scan(text, "", false))
    ensures x in c.text ==> x in text
    ensures c.kind == Word ==> c.text != ""
    ensures c.kind == Exact ==> DOUBLE_QUOTE in text
  {
    hide Scan;
    var raws := Scan(text, "", false);
    var k :| 0 <= k < |raws| && ClassifyAll(raws)[k] == c;
    if x in c.text {
      ScanChars(text, "", false, raws[k], x);
    }
    if c.kind == Exact {
      assert DOUBLE_QUOTE in raws[k].text;
      ScanChars(text, "", false, raws[k], DOUBLE_QUOTE);
    }
  }

  lemma ExpandOf(cc: CharClass, c: Term, t: Term)
    requires t in Expand(cc, c) && t != c
    ensures t == Term(Word, c.field, t.text) && t.text in TokenizeContent(cc, c.text)
  {
    hide TokenizeContent;
  }

  /** A term of a branch is what was written there, or a token of it. */
  lemma TermIsSound(l: Locale, text: string, stopwords: bool, branch: seq<Term>, t: Term)
    requires WfLocale(l) && Reads(l, text, stopwords, branch) && t in branch
    ensures BAR in t.text ==> BAR in text
    ensures t.kind == Word ==> t.text != ""
    ensures t.kind == Exact ==> DOUBLE_QUOTE in text
  {
    assert Classifiable(Scan(text, "", false)) && WfChars(l.cc);
    hide Stays, Scan, TokenizeContent, WfLocale, WfChars, Reads, Classifiable, ClassifyAll, Expand;
    TermOrigin(l, text, stopwords, branch, t);
    var c :| c in ClassifyAll(Scan(text, "", false)) && t in Expand(l.cc, c);
    ClassifiedIsSound(text, c, BAR);
    if t != c {
      ExpandOf(l.cc, c, t);
      NoSpaces(l.cc, c.text, t.text);
      TokensNonEmpty(l.cc, c.text, t.text);
    }
  }

  /** A word of a branch that holds the key separator has at most one token: others are expanded and lose it. */
  lemma BarWordIsWhole(l: Locale, text: string, stopwords: bool, branch: seq<Term>, t: Term)
    requires Reads(l, text, stopwords, branch) && t in branch && t.kind == Word && BAR in t.text
    ensures |TokenizeContent(l.cc, t.text)| <= 1
  {
    assert Classifiable(Scan(text, "", false));
    hide Stays, Scan, TokenizeContent, Reads, Classifiable, ClassifyAll, Expand;
    TermOrigin(l, text, stopwords, branch, t);
    var c :| c in ClassifyAll(Scan(text, "", false)) && t in Expand(l.cc, c);
    BarWordUnexpanded(l.cc, c, t);
  }

  lemma BarWordUnexpanded(cc: CharClass, c: Term, t: Term)
    requires t in Expand(cc, c) && t.kind == Word && BAR in t.text
    ensures t == c && |TokenizeContent(cc, t.text)| <= 1
  {
    hide TokenizeContent;
    if t.text in TokenizeContent(cc, c.text) {
      NoSpaces(cc, c.text, t.text);
    }
  }

  /**
   The terms of a query without the key separator are free of it, no word among them is empty, and without
   quotes all of them are words.
   */
  lemma TermsAreSound(l: Locale, query: string, stopwords: bool, branches: seq<seq<Term>>, branch: seq<Term>, t: Term)
    requires WfLocale(l) && ReadsAll(l, query, stopwords, branches)
    requires branch in branches && t in branch
    ensures BAR in t.text ==> BAR in Lower(l, query)
    ensures t.kind == Word ==> t.text != ""
    ensures t.kind == Exact ==> DOUBLE_QUOTE in Lower(l, query)
  {
    hide SplitOr, Reads, WfLocale;
    var texts := SplitOr(Lower(l, query));
    var i :| 0 <= i < |branches| && branches[i] == branch;
    if BAR in texts[i] {
      SplitOrChars(Lower(l, query), texts[i], BAR);
    }
    if DOUBLE_QUOTE in texts[i] {
      SplitOrChars(Lower(l, query), texts[i], DOUBLE_QUOTE);
    }
    TermIsSound(l, texts[i], stopwords, branch, t);
  }

  lemma {:induction false} SplitOrWhole(s: string)
    requires SPACE !in s
    ensures SplitOr(s) == [s]
  {
    if |s| >= |OR| {
      assert s[..|OR|] != OR by { assert s[..|OR|][0] == s[0] && s[0] in s; }
      SplitOrWhole(s[1..]);
      assert [s[0]] + s[1..] == s;
    }
  }

  lemma SomeTerm(b: seq<Term>)
    ensures b != [] ==> exists t :: multiset(b)[t] > 0
  {
    if b != [] {
      assert multiset(b)[b[0]] > 0;
    }
  }

  /** Text without spaces, quotes, colons and with more than a dropped symbol is read as one word. */
  lemma ReadsAsWord(l: Locale, word: string)
    requires SPACE !in word && DOUBLE_QUOTE !in word && COLON !in word && word != "" && !IsDropped(word)
    ensures Scan(word, "", false) == [Raw(None, word)]
    ensures ClassifyAll([Raw(None, word)]) == [Term(Word, None, word)]
  {
    hide IsDropped;
    ScanOneWord(word);
    assert word[0] in word;
  }
}
