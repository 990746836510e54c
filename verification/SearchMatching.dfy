/**
 Running a tokenized query against the token table: the range filters, comparing the tokens searched and found,
 scoring, and gathering the documents, as in djangae/contrib/search/query.py. Scores are exact reals.
 */
module SearchMatching {
  import opened Common
  import opened Strings
  import opened Tokens
  import opened Fields
  import opened SearchKeys
  import opened SearchQuery

  /** A row of the token table, which all indexes share. */
  datatype Row = Row(index: string, entry: Entry)

  function Pk(r: Row): string {
    GenerateKey(r.index, r.entry)
  }

  predicate WfRow(r: Row) {
    BarFree(r.index, r.entry) && TopFree(Pk(r))
  }

  predicate WfRows(rows: set<Row>) {
    forall r :: r in rows ==> WfRow(r)
  }

  datatype Options = Options(startswith: bool, all: bool)

  // ----------------------------------------------------------------------- filters

  /** Without a field name, or with an empty one, any field will do. */
  predicate FieldFits(t: Term, e: Entry) {
    t.field.None? || t.field.value == "" || e.field == t.field.value
  }

  /** The filters appended for one word. */
  predicate Selects(index: string, startswith: bool, t: Term, r: Row) {
    && FieldFits(t, r.entry)
    && (InScan(ExactStart(index, t.text), Pk(r)) || (startswith && InScan(PrefixStart(index, t.text), Pk(r))))
  }

  /** Filters are joined by "or"; no filter at all selects every row of the table. */
  predicate Passes(index: string, startswith: bool, branch: seq<Term>, r: Row) {
    branch == [] || exists t :: t in branch && Selects(index, startswith, t, r)
  }

  function Fetched(index: string, startswith: bool, branch: seq<Term>, rows: set<Row>): set<Row> {
    set r | r in rows && Passes(index, startswith, branch, r)
  }

  /** What a word is meant to match. */
  predicate Matches(startswith: bool, t: Term, e: Entry) {
    FieldFits(t, e) && (e.token == t.text || (startswith && t.text <= e.token))
  }

  /** For text free of the key separator, the scans find exactly the meant rows of this index. */
  lemma SelectsIsMatches(index: string, startswith: bool, t: Term, r: Row)
    requires WfRow(r) && SearchKeys.BAR !in index && SearchKeys.BAR !in t.text
    ensures Selects(index, startswith, t, r) <==> r.index == index && Matches(startswith, t, r.entry)
  {
    ExactScan(index, t.text, r.index, r.entry);
    PrefixScan(index, t.text, r.index, r.entry);
  }

  /** A selected row's token starts with the searched text exactly when that is free of the key separator. */
  lemma ScorableIffBarFree(index: string, startswith: bool, t: Term, r: Row)
    requires WfRow(r) && SearchKeys.BAR !in index && Selects(index, startswith, t, r)
    ensures t.text <= r.entry.token <==> SearchKeys.BAR !in t.text
  {
    if SearchKeys.BAR !in t.text {
      SelectsIsMatches(index, startswith, t, r);
    }
  }

  /** Text holding a token, the separator and a field name does select that token's rows. */
  lemma BarTextSelects(index: string, startswith: bool, e: Entry)
    requires WfRow(Row(index, e))
    ensures Selects(index, startswith, Term(Word, None, e.token + [SearchKeys.BAR] + e.field), Row(index, e))
  {
    var text := e.token + [SearchKeys.BAR] + e.field;
    var key, start := GenerateKey(index, e), ExactStart(index, text);
    var tail := Join([Decimal(e.doc), Decimal(e.rev)], SearchKeys.BAR);
    KeyShape(index, e);
    assert [e.field, Decimal(e.doc), Decimal(e.rev)][1..] == [Decimal(e.doc), Decimal(e.rev)];
    assert KeyTail(e) == e.field + [SearchKeys.BAR] + tail;
    assert key == start + tail;
    ScanIsStartswith(start, key);
  }

  // ------------------------------------------------------------------ found tokens

  function Docs(fetched: set<Row>): set<int> {
    set r | r in fetched :: r.entry.doc
  }

  function Found(fetched: set<Row>, doc: int): set<string> {
    set r | r in fetched && r.entry.doc == doc :: r.entry.token
  }

  lemma FoundNext(fetched: set<Row>, r: Row, doc: int)
    ensures Docs(fetched + {r}) == Docs(fetched) + {r.entry.doc}
    ensures Found(fetched + {r}, doc) == Found(fetched, doc) + if r.entry.doc == doc then {r.entry.token} else {}
  {
  }

  /** The loop that takes document id and token out of each fetched key. */
  method GatherFound(fetched: set<Row>) returns (results: map<int, set<string>>)
    requires WfRows(fetched)
    ensures results == map d | d in Docs(fetched) :: Found(fetched, d)
  {
    hide Docs, Found, BarFree, TopFree;
    results := map[];
    var rest := fetched;
    NoneFound();
    assert fetched - rest == {};
    while rest != {}
      invariant rest <= fetched
      invariant results.Keys == Docs(fetched - rest)
      invariant forall d :: d in results ==> results[d] == Found(fetched - rest, d)
      invariant forall d :: d !in results ==> Found(fetched - rest, d) == {}
      decreases rest
    {
      var r :| r in rest;
      KeyRoundTrip(r.index, r.entry);
      var doc, token := DocumentIdFromPk(Pk(r)).value, TokenFromPk(Pk(r)).value;
      assert fetched - (rest - {r}) == fetched - rest + {r};
      forall d ensures Docs(fetched - (rest - {r})) == Docs(fetched - rest) + {doc}
                    && Found(fetched - (rest - {r}), d) == Found(fetched - rest, d) + if doc == d then {token} else {}
      {
        FoundNext(fetched - rest, r, d);
      }
      results := results[doc := (if doc in results then results[doc] else {}) + {token}];
      rest := rest - {r};
    }
    assert fetched - rest == fetched;
  }

  lemma NoneFound()
    ensures Docs({}) == {} && forall d :: Found({}, d) == {}
  {
  }

  // -------------------------------------------------------------------- comparison

  predicate EachFound(searched: set<string>, found: set<string>) {
    forall s :: s in searched ==> exists f :: f in found && s <= f
  }

  /** Whether a document is accepted, and the found tokens that remain to be scored. */
  datatype Verdict = Verdict(accepted: bool, found: set<string>)

  function Compare(cc: CharClass, searched: set<string>, found: set<string>, o: Options): Verdict {
    if !o.all then Verdict(true, found)
    else if o.startswith then Verdict(EachFound(searched, found), found)
    else if |searched| == |found| then Verdict(true, found)
    else if |found| == 1 then Verdict(exists f :: f in found && |TokenizeContent(cc, f)| == |searched|, {})
    else Verdict(false, found)
  }

  method SomeStartsWith(s: string, found: set<string>) returns (r: bool)
    ensures r <==> exists f :: f in found && s <= f
  {
    var rest := found;
    while rest != {}
      invariant rest <= found
      invariant forall f :: f in found ==> f in rest || !(s <= f)
      decreases rest
    {
      var f :| f in rest;
      if s <= f {
        return true;
      }
      rest := rest - {f};
    }
    r := false;
  }

  /** _compare_tokens; taking the only found token out leaves nothing to score. */
  method CompareTokens(cc: CharClass, searched: set<string>, found: set<string>, o: Options) returns (v: Verdict)
    ensures v == Compare(cc, searched, found, o)
  {
    hide TokenizeContent;
    if !o.all {
      return Verdict(true, found);
    }
    if o.startswith {
      var rest := searched;
      while rest != {}
        invariant rest <= searched
        invariant forall x :: x in searched ==> x in rest || exists f :: f in found && x <= f
        decreases rest
      {
        var s :| s in rest;
        var present := SomeStartsWith(s, found);
        if !present {
          return Verdict(false, found);
        }
        rest := rest - {s};
      }
      return Verdict(true, found);
    }
    if |searched| == |found| {
      return Verdict(true, found);
    }
    if |found| == 1 {
      var f :| f in found;
      assert found == {f} by { OnlyOne(found, f); }
      var tokens := TokenizeContentLoop(cc, f);
      return Verdict(|tokens| == |searched|, found - {f});
    }
    v := Verdict(false, found);
  }

  lemma OnlyOne<T>(s: set<T>, x: T)
    requires |s| == 1 && x in s
    ensures s == {x}
  {
    assert |s - {x}| == 0;
  }

  // ----------------------------------------------------------------------- scoring

  /** The length of the shortest prefix of the token, at least n long, that was searched for. */
  function ShortestPrefix(searched: set<string>, token: string, n: nat): (r: Option<nat>)
    requires n <= |token|
    ensures r.Some? ==> n <= r.value <= |token| && token[..r.value] in searched
    ensures forall k :: n <= k <= |token| && token[..k] in searched ==> r.Some? && r.value <= k
    decreases |token| - n
  {
    if token[..n] in searched then Some(n)
    else if n == |token| then None
    else ShortestPrefix(searched, token, n + 1)
  }

  /** A quarter for a stop word, one for an exact match, else the matched part; None is an IndexError. */
  function TokenScore(stop: string -> bool, searched: set<string>, token: string): Option<real> {
    if stop(token) then Some(0.25)
    else if token in searched then Some(1.0)
    else
      var best := ShortestPrefix(searched, token, 0);
      if best.None? || token == "" then None else Some(best.value as real / |token| as real)
  }

  predicate Scorable(stop: string -> bool, searched: set<string>, tokens: set<string>) {
    forall t :: t in tokens ==> TokenScore(stop, searched, t).Some?
  }

  ghost function Sum(stop: string -> bool, searched: set<string>, tokens: set<string>): real
    requires Scorable(stop, searched, tokens)
  {
    if tokens == {} then 0.0
    else
      var t :| t in tokens;
      TokenScore(stop, searched, t).value + Sum(stop, searched, tokens - {t})
  }

  /** The sum does not depend on the order in which the tokens are taken. */
  lemma {:induction false} SumWithout(stop: string -> bool, searched: set<string>, tokens: set<string>, x: string)
    requires Scorable(stop, searched, tokens) && x in tokens
    ensures Sum(stop, searched, tokens) == TokenScore(stop, searched, x).value + Sum(stop, searched, tokens - {x})
    decreases tokens
  {
    hide TokenScore;
    var t :| t in tokens
             && Sum(stop, searched, tokens) == TokenScore(stop, searched, t).value + Sum(stop, searched, tokens - {t});
    if t != x {
      SumWithout(stop, searched, tokens - {t}, x);
      SumWithout(stop, searched, tokens - {x}, t);
      assert tokens - {t} - {x} == tokens - {x} - {t};
    }
  }

  /** The searched tokens that the token starts with, the shortest of them first. */
  method BestPotential(searched: set<string>, token: string) returns (best: Option<string>)
    ensures ShortestPrefix(searched, token, 0) == if best.None? then None else Some(|best.value|)
  {
    best := None;
    var rest := searched;
    while rest != {}
      invariant rest <= searched
      invariant best.None? ==> forall s :: s in searched ==> s in rest || !(s <= token)
      invariant best.Some? ==> best.value in searched && best.value <= token
      invariant best.Some? ==> forall s :: s in searched && s <= token ==> s in rest || |best.value| <= |s|
      decreases rest
    {
      var s :| s in rest;
      if s <= token && (best.None? || |s| < |best.value|) {
        best := Some(s);
      }
      rest := rest - {s};
    }
    assert best.Some? ==> token[..|best.value|] == best.value;
  }

  /** _calculate_score */
  method CalculateScore(stop: string -> bool, searched: set<string>, tokens: set<string>) returns (r: Option<real>)
    ensures r == if Scorable(stop, searched, tokens) then Some(Sum(stop, searched, tokens)) else None
  {
    hide ShortestPrefix, Sum;
    var score, rest := 0.0, tokens;
    while rest != {}
      invariant rest <= tokens
      invariant Scorable(stop, searched, tokens - rest)
      invariant Scorable(stop, searched, rest) ==> score + Sum(stop, searched, rest) == Sum(stop, searched, tokens)
      decreases rest
    {
      var token :| token in rest;
      if Scorable(stop, searched, rest) { SumWithout(stop, searched, rest, token); }
      if stop(token) {
        score := score + 0.25;
      } else if token in searched {
        score := score + 1.0;
      } else {
        var best := BestPotential(searched, token);
        if best.None? || token == "" {
          return None;
        }
        score := score + |best.value| as real / |token| as real;
      }
      rest := rest - {token};
    }
    assert tokens - rest == tokens;
    SumOfNone(stop, searched);
    r := Some(score);
  }

  lemma SumOfNone(stop: string -> bool, searched: set<string>)
    ensures Sum(stop, searched, {}) == 0.0
  {
  }

  /** Every token adds more than 0 and at most 1: a stop word a quarter, any other 1 just for an exact match. */
  lemma TokenScoreRange(stop: string -> bool, searched: set<string>, token: string)
    requires "" !in searched && TokenScore(stop, searched, token).Some?
    ensures 0.0 < TokenScore(stop, searched, token).value <= 1.0
    ensures stop(token) ==> 4.0 * TokenScore(stop, searched, token).value == 1.0
    ensures !stop(token) ==> (TokenScore(stop, searched, token).value == 1.0 <==> token in searched)
  {
    var best := ShortestPrefix(searched, token, 0);
    if !stop(token) && token !in searched {
      assert token[..0] == "" && token[..|token|] == token;
      assert 0 < best.value < |token|;
    }
  }

  /** Of the searched texts that start the token, p is a shortest one. */
  predicate IsBest(searched: set<string>, token: string, p: string) {
    p in searched && p <= token && forall s :: s in searched && s <= token ==> |p| <= |s|
  }

  /** A token that was not searched itself adds the part of it that a shortest searched prefix covers. */
  lemma PartScore(stop: string -> bool, searched: set<string>, token: string, p: string)
    requires !stop(token) && token !in searched && token != "" && IsBest(searched, token, p)
    ensures TokenScore(stop, searched, token).Some?
    ensures TokenScore(stop, searched, token).value * |token| as real == |p| as real
  {
    assert token[..|p|] == p;
    var best := ShortestPrefix(searched, token, 0);
    assert best.Some? && token[..best.value] in searched && token[..best.value] <= token;
    assert best.value == |p|;
  }

  /** Of two tokens found through the same text, the shorter one adds more. */
  lemma ShorterScoresMore(stop: string -> bool, searched: set<string>, a: string, b: string, p: string)
    requires !stop(a) && !stop(b) && b !in searched && "" !in searched && |a| < |b|
    requires IsBest(searched, a, p) && IsBest(searched, b, p)
    ensures TokenScore(stop, searched, a).Some? && TokenScore(stop, searched, b).Some?
    ensures TokenScore(stop, searched, a).value > TokenScore(stop, searched, b).value
  {
    assert p != "";
    PartScore(stop, searched, b, p);
    TokenScoreRange(stop, searched, b);
    if a !in searched {
      PartScore(stop, searched, a, p);
      hide TokenScore;
      ProductsDecide(TokenScore(stop, searched, a).value, |a|, TokenScore(stop, searched, b).value, |b|, |p|);
    }
  }

  lemma ProductsDecide(x: real, m: nat, y: real, n: nat, k: nat)
    requires 0 < m < n && 0 < k && x * m as real == k as real == y * n as real
    ensures x > y
  {
    assert y > 0.0;
    assert (x - y) * m as real == y * (n - m) as real > 0.0;
  }

  lemma {:induction false} SumRange(stop: string -> bool, searched: set<string>, tokens: set<string>)
    requires "" !in searched && Scorable(stop, searched, tokens)
    ensures 0.0 <= Sum(stop, searched, tokens) <= |tokens| as real
    ensures tokens != {} ==> 0.0 < Sum(stop, searched, tokens)
    decreases tokens
  {
    hide TokenScore;
    if tokens != {} {
      var t :| t in tokens;
      TokenScoreRange(stop, searched, t);
      SumWithout(stop, searched, tokens, t);
      SumRange(stop, searched, tokens - {t});
    }
  }

  // --------------------------------------------------------------------- searching

  /** A search: the locale, the index, the token table and the options. */
  datatype Search = Search(l: Locale, index: string, rows: set<Row>, o: Options)

  function Texts(branch: seq<Term>): set<string> {
    set t | t in branch :: t.text
  }

  function Hits(q: Search, branch: seq<Term>): set<Row> {
    Fetched(q.index, q.o.startswith, branch, q.rows)
  }

  function Outcome(q: Search, branch: seq<Term>, doc: int): Verdict {
    Compare(q.l.cc, Texts(branch), Found(Hits(q, branch), doc), q.o)
  }

  predicate HasExact(branch: seq<Term>) {
    exists t :: t in branch && t.kind == Exact
  }

  /** Some accepted document has a found token that cannot be scored. */
  predicate Fails(q: Search, branch: seq<Term>) {
    exists d :: d in Docs(Hits(q, branch)) && Outcome(q, branch, d).accepted
                && !Scorable(q.l.isStop, Texts(branch), Outcome(q, branch, d).found)
  }

  /** The scores of those of the documents that are accepted. */
  ghost function ScoresOf(q: Search, branch: seq<Term>, docs: set<int>): map<int, real> {
    map d | d in docs && Outcome(q, branch, d).accepted
            && Scorable(q.l.isStop, Texts(branch), Outcome(q, branch, d).found)
      :: Sum(q.l.isStop, Texts(branch), Outcome(q, branch, d).found)
  }

  /** What one branch adds to the score of each document. */
  ghost function BranchScores(q: Search, branch: seq<Term>): Result<map<int, real>, QueryError> {
    if HasExact(branch) then Err(NotImplemented)
    else if Fails(q, branch) then Err(IndexError)
    else Ok(ScoresOf(q, branch, Docs(Hits(q, branch))))
  }

  function Get(scores: map<int, real>, d: int): real {
    if d in scores then scores[d] else 0.0
  }

  function AddScores(a: map<int, real>, b: map<int, real>): map<int, real> {
    map d | d in a.Keys + b.Keys :: Get(a, d) + Get(b, d)
  }

  ghost function TotalScores(q: Search, branches: seq<seq<Term>>): Result<map<int, real>, QueryError> {
    if branches == [] then Ok(map[])
    else
      var front, last := TotalScores(q, branches[..|branches| - 1]), BranchScores(q, branches[|branches| - 1]);
      if front.Err? then front
      else if last.Err? then last
      else Ok(AddScores(front.value, last.value))
  }

  /** A branch per term. */
  function Singles(branches: seq<seq<Term>>): seq<seq<Term>> {
    if branches == [] then []
    else Singles(branches[..|branches| - 1]) + EachAlone(branches[|branches| - 1])
  }

  function EachAlone(branch: seq<Term>): seq<seq<Term>> {
    seq(|branch|, i requires 0 <= i < |branch| => [branch[i]])
  }

  function Effective(o: Options, branches: seq<seq<Term>>): seq<seq<Term>> {
    if o.all then branches else Singles(branches)
  }

  method SinglesLoop(branches: seq<seq<Term>>) returns (r: seq<seq<Term>>)
    ensures r == Singles(branches)
  {
    r := [];
    for i := 0 to |branches|
      invariant r == Singles(branches[..i])
    {
      ghost var before := r;
      for k := 0 to |branches[i]|
        invariant r == before + EachAlone(branches[i][..k])
      {
        assert EachAlone(branches[i][..k + 1]) == EachAlone(branches[i][..k]) + [[branches[i][k]]];
        r := r + [[branches[i][k]]];
      }
      assert branches[i][..|branches[i]|] == branches[i];
      assert branches[..i + 1][..i] == branches[..i];
    }
    assert branches[..|branches|] == branches;
  }

  lemma ScoresOfNext(q: Search, branch: seq<Term>, scores: map<int, real>, docs: set<int>, doc: int)
    requires doc !in docs
    ensures var v, was := Outcome(q, branch, doc), AddScores(scores, ScoresOf(q, branch, docs));
            AddScores(scores, ScoresOf(q, branch, docs + {doc}))
            == if v.accepted && Scorable(q.l.isStop, Texts(branch), v.found)
               then was[doc := Get(was, doc) + Sum(q.l.isStop, Texts(branch), v.found)] else was
  {
    hide Outcome, Texts, Sum, Scorable;
  }

  /** The loop over the documents of one branch, adding to the scores so far. */
  method ScoreBranch(q: Search, branch: seq<Term>, scores: map<int, real>)
    returns (r: Result<map<int, real>, QueryError>)
    requires WfRows(q.rows)
    ensures BranchScores(q, branch).Err? ==> r == BranchScores(q, branch)
    ensures BranchScores(q, branch).Ok? ==> r == Ok(AddScores(scores, BranchScores(q, branch).value))
  {
    hide WfRow, Passes, Compare, Scorable, Sum, Docs, Found, AddScores, ScoresOf;
    if HasExact(branch) {
      return Err(NotImplemented);
    }
    var searched := Texts(branch);
    var results := GatherFound(Hits(q, branch));
    var total, rest := scores, results.Keys;
    NoScores(q, branch, scores);
    assert results.Keys - rest == {};
    while rest != {}
      invariant rest <= results.Keys
      invariant forall d :: d in results && Outcome(q, branch, d).accepted
                            ==> d in rest || Scorable(q.l.isStop, searched, Outcome(q, branch, d).found)
      invariant total == AddScores(scores, ScoresOf(q, branch, results.Keys - rest))
      decreases rest
    {
      var doc :| doc in rest;
      var verdict := CompareTokens(q.l.cc, searched, results[doc], q.o);
      ScoresOfNext(q, branch, scores, results.Keys - rest, doc);
      assert results.Keys - (rest - {doc}) == results.Keys - rest + {doc};
      if verdict.accepted {
        var score := CalculateScore(q.l.isStop, searched, verdict.found);
        if score.None? {
          return Err(IndexError);
        }
        total := total[doc := Get(total, doc) + score.value];
      }
      rest := rest - {doc};
    }
    assert results.Keys - rest == Docs(Hits(q, branch));
    r := Ok(total);
  }

  lemma NoScores(q: Search, branch: seq<Term>, scores: map<int, real>)
    ensures AddScores(scores, ScoresOf(q, branch, {})) == scores
  {
  }

  /** The loop over the branches. */
  method ScoreAll(q: Search, branches: seq<seq<Term>>) returns (r: Result<map<int, real>, QueryError>)
    requires WfRows(q.rows)
    ensures r == TotalScores(q, branches)
  {
    hide BranchScores, AddScores, WfRow;
    var scores: map<int, real> := map[];
    for i := 0 to |branches|
      invariant TotalScores(q, branches[..i]) == Ok(scores)
    {
      assert branches[..i + 1][..i] == branches[..i];
      var next := ScoreBranch(q, branches[i], scores);
      if next.Err? {
        FirstError(q, branches, i);
        return next;
      }
      scores := next.value;
    }
    assert branches[..|branches|] == branches;
    r := Ok(scores);
  }

  lemma {:induction false} FirstError(q: Search, branches: seq<seq<Term>>, i: nat)
    requires i < |branches| && TotalScores(q, branches[..i]).Ok? && BranchScores(q, branches[i]).Err?
    ensures TotalScores(q, branches) == BranchScores(q, branches[i])
    decreases |branches|
  {
    hide BranchScores;
    var n := |branches| - 1;
    if i < n {
      assert branches[..n][..i] == branches[..i];
      FirstError(q, branches[..n], i);
    }
  }

  // --------------------------------------------------------------------- ranking

  /** By descending score. */
  predicate IsRanked(scores: map<int, real>, ids: seq<int>) {
    && (forall i :: 0 <= i < |ids| ==> ids[i] in scores)
    && forall i, j :: 0 <= i < j < |ids| ==> scores[ids[i]] >= scores[ids[j]]
  }

  function InsertRanked(scores: map<int, real>, ids: seq<int>, d: int): (r: seq<int>)
    requires IsRanked(scores, ids) && d in scores
    ensures multiset(r) == multiset(ids) + multiset{d}
  {
    if ids == [] || scores[ids[0]] < scores[d] then [d] + ids
    else
      assert ids == [ids[0]] + ids[1..];
      [ids[0]] + InsertRanked(scores, ids[1..], d)
  }

  lemma {:induction false} InsertKeepsRank(scores: map<int, real>, ids: seq<int>, d: int)
    requires IsRanked(scores, ids) && d in scores
    ensures IsRanked(scores, InsertRanked(scores, ids, d))
  {
    if ids != [] && scores[ids[0]] >= scores[d] {
      var rest := InsertRanked(scores, ids[1..], d);
      InsertKeepsRank(scores, ids[1..], d);
      forall i | 0 <= i < |rest| ensures scores[rest[i]] <= scores[ids[0]] {
        assert rest[i] in multiset(rest);
        assert rest[i] == d || rest[i] in ids[1..];
      }
      BestFirst(scores, ids[0], rest);
    }
  }

  lemma BestFirst(scores: map<int, real>, best: int, rest: seq<int>)
    requires best in scores && IsRanked(scores, rest) && forall i :: 0 <= i < |rest| ==> scores[rest[i]] <= scores[best]
    ensures IsRanked(scores, [best] + rest)
  {
  }

  /** Whatever scores more comes first. */
  lemma HigherComesFirst(scores: map<int, real>, ids: seq<int>, a: int, b: int)
    requires IsRanked(scores, ids) && multiset(ids) == multiset(scores.Keys)
    requires a in scores && b in scores && scores[a] > scores[b]
    ensures Precedes(ids, a, b)
  {
    assert a in multiset(ids) && b in multiset(ids);
    var i :| 0 <= i < |ids| && ids[i] == a;
    var j :| 0 <= j < |ids| && ids[j] == b;
    assert i < j;
  }

  predicate Precedes(ids: seq<int>, a: int, b: int) {
    exists i, j :: 0 <= i < j < |ids| && ids[i] == a && ids[j] == b
  }

  lemma NoneRanked(scores: map<int, real>)
    ensures IsRanked(scores, [])
  {
  }

  /** The document ids sorted by descending score; the order among equal scores is left open. */
  method Rank(scores: map<int, real>) returns (ids: seq<int>)
    ensures IsRanked(scores, ids) && multiset(ids) == multiset(scores.Keys)
  {
    hide IsRanked, InsertRanked;
    ids := [];
    var rest := scores.Keys;
    NoneRanked(scores);
    assert scores.Keys - rest == {};
    while exists d :: d in rest
      invariant rest <= scores.Keys
      invariant IsRanked(scores, ids) && multiset(ids) == multiset(scores.Keys - rest)
      decreases rest
    {
      var d :| d in rest;
      InsertKeepsRank(scores, ids, d);
      ids := InsertRanked(scores, ids, d);
      assert scores.Keys - (rest - {d}) == scores.Keys - rest + {d};
      rest := rest - {d};
    }
    assert scores.Keys - rest == scores.Keys;
  }

  /**
   build_document_queryset: reads the query, divides the branches unless all terms must match, scores, and keeps
   the documents that have a record; the ids are ranked by score.
   */
  method BuildDocumentQueryset(l: Locale, query: string, stopwords: bool, q: Search, records: set<int>)
    returns (r: Result<map<int, real>, QueryError>, results: set<int>, ids: seq<int>, ghost branches: seq<seq<Term>>)
    requires WfRows(q.rows) && q.l == l
    ensures !Readable(l, query) ==> r == Err(IndexError)
    ensures Readable(l, query)
            ==> ReadsAll(l, query, stopwords, branches) && r == TotalScores(q, Effective(q.o, branches))
    ensures r.Ok? ==> results == records * r.value.Keys
    ensures r.Ok? ==> IsRanked(r.value, ids) && multiset(ids) == multiset(r.value.Keys)
  {
    hide Readable, ReadsAll, TotalScores, Singles, WfRow;
    results, ids, branches := {}, [], [];
    var tokenization := TokenizeQueryString(l, query, stopwords);
    if tokenization.Err? {
      return Err(IndexError), {}, [], [];
    }
    branches := tokenization.value;
    var effective := tokenization.value;
    if !q.o.all {
      effective := SinglesLoop(tokenization.value);
    }
    r := ScoreAll(q, effective);
    if r.Ok? {
      results := set d | d in r.value && d in records;
      ids := Rank(r.value);
    }
  }

  // -------------------------------------------------------- how scan and scorer fit

  /** Words, all of them free of the key separator, and at least one. */
  predicate IsSound(branch: seq<Term>) {
    branch != [] && forall t :: t in branch ==> t.kind == Word && t.text != "" && SearchKeys.BAR !in t.text
  }

  predicate WfSearch(q: Search) {
    WfRows(q.rows) && SearchKeys.BAR !in q.index
  }

  /** The found tokens are those of the document's rows that some term matches. */
  lemma FoundIff(q: Search, branch: seq<Term>, doc: int, f: string)
    requires WfSearch(q) && IsSound(branch)
    ensures f in Found(Hits(q, branch), doc)
            <==> exists r, t :: r in q.rows && r.index == q.index && r.entry.doc == doc && r.entry.token == f
                                && t in branch && Matches(q.o.startswith, t, r.entry)
  {
    hide WfRow, Selects, Matches;
    forall r, t | r in q.rows && t in branch
      ensures Selects(q.index, q.o.startswith, t, r) <==> r.index == q.index && Matches(q.o.startswith, t, r.entry)
    {
      SelectsIsMatches(q.index, q.o.startswith, t, r);
    }
  }

  /**
   Without startswith the found tokens are searched ones, so that comparing the counts compares the sets; with
   it every found token starts with a searched one. Either way they can all be scored.
   */
  lemma FoundFits(q: Search, branch: seq<Term>, doc: int)
    requires WfSearch(q) && IsSound(branch)
    ensures var searched, found := Texts(branch), Found(Hits(q, branch), doc);
            && "" !in searched && Scorable(q.l.isStop, searched, found)
            && (forall f :: f in found ==> exists s :: s in searched && s <= f)
            && (!q.o.startswith ==> found <= searched && (|searched| == |found| <==> searched == found))
  {
    hide WfSearch, Found, Hits;
    var searched, found := Texts(branch), Found(Hits(q, branch), doc);
    forall f | f in found
      ensures (exists s :: s in searched && s <= f) && TokenScore(q.l.isStop, searched, f).Some?
      ensures !q.o.startswith ==> f in searched
    {
      FoundIff(q, branch, doc, f);
      var r, t :| r in q.rows && r.entry.token == f && t in branch && Matches(q.o.startswith, t, r.entry);
      assert t.text in searched && t.text <= f && f[..|t.text|] == t.text by {
        MatchesPrefix(q.o.startswith, t, r.entry);
      }
    }
    if !q.o.startswith && |searched| == |found| {
      SubsetOfSameSize(found, searched);
    }
  }

  lemma MatchesPrefix(startswith: bool, t: Term, e: Entry)
    requires Matches(startswith, t, e)
    ensures t.text <= e.token && e.token[..|t.text|] == t.text
    ensures !startswith ==> t.text == e.token
  {
  }

  lemma SubsetOfSameSize<T>(a: set<T>, b: set<T>)
    requires a <= b && |a| == |b|
    ensures a == b
  {
    assert b == a + (b - a);
    assert |b| == |a| + |b - a|;
  }

  /** A sound branch never fails, and gives every accepted document a score of at most one per found token. */
  lemma BranchSucceeds(q: Search, branch: seq<Term>)
    requires WfSearch(q) && IsSound(branch)
    ensures BranchScores(q, branch).Ok?
    ensures var scores := BranchScores(q, branch).value;
            forall d :: d in scores ==> 0.0 <= scores[d] <= |Found(Hits(q, branch), d)| as real
  {
    hide WfSearch, Found, Hits, Sum, TokenScore;
    forall d | d in Docs(Hits(q, branch)) && Outcome(q, branch, d).accepted
      ensures Scorable(q.l.isStop, Texts(branch), Outcome(q, branch, d).found)
      ensures 0.0 <= Sum(q.l.isStop, Texts(branch), Outcome(q, branch, d).found) <= |Found(Hits(q, branch), d)| as real
    {
      FoundFits(q, branch, d);
      SumRange(q.l.isStop, Texts(branch), Outcome(q, branch, d).found);
    }
  }

  predicate AllWords(branch: seq<Term>) {
    forall t :: t in branch ==> t.kind == Word && t.text != ""
  }

  /** A found token cannot be scored exactly when it is no stop word and starts with nothing searched. */
  lemma UnscoredIff(stop: string -> bool, searched: set<string>, f: string)
    ensures TokenScore(stop, searched, f).None? <==> !stop(f) && forall s :: s in searched ==> !(s <= f)
  {
    assert f[..|f|] == f;
    if s :| s in searched && s <= f {
      assert f[..|s|] == s;
    }
  }

  /** A found token was selected by some term. */
  lemma FoundBySome(q: Search, branch: seq<Term>, doc: int, f: string) returns (r: Row, t: Term)
    requires branch != [] && f in Found(Hits(q, branch), doc)
    ensures r in q.rows && r.entry.doc == doc && r.entry.token == f && t in branch
    ensures Selects(q.index, q.o.startswith, t, r)
  {
    hide Selects;
    r :| r in Hits(q, branch) && r.entry.doc == doc && r.entry.token == f;
    t :| t in branch && Selects(q.index, q.o.startswith, t, r);
  }

  /** The tokens of a document's rows that the filter of some term selects. */
  function SelectedTokens(q: Search, branch: seq<Term>, d: int): set<string> {
    set r, t | r in q.rows && r.entry.doc == d && t in branch && Selects(q.index, q.o.startswith, t, r) :: r.entry.token
  }

  /**
   A term that holds the separator nevertheless selects a row whose token is no stop word and starts with none of
   the searched texts, while as many tokens of that document are selected as were searched.
   */
  predicate Miscounts(q: Search, branch: seq<Term>, r: Row, t: Term) {
    && r in q.rows && t in branch && SearchKeys.BAR in t.text && Selects(q.index, q.o.startswith, t, r)
    && !q.l.isStop(r.entry.token) && (forall c :: c in branch ==> !(c.text <= r.entry.token))
    && |SelectedTokens(q, branch, r.entry.doc)| == |Texts(branch)|
  }

  lemma FoundAreSelected(q: Search, branch: seq<Term>, d: int)
    requires branch != []
    ensures Found(Hits(q, branch), d) == SelectedTokens(q, branch, d)
  {
    hide Selects;
    forall f | f in Found(Hits(q, branch), d) ensures f in SelectedTokens(q, branch, d) {
      var r, t := FoundBySome(q, branch, d, f);
    }
  }

  /**
   Without a term and with startswith: the table holds a token that is no stop word. With terms and without
   startswith: a term that holds the separator selects a row that cannot be scored and counts as a match.
   */
  ghost predicate Breaks(q: Search, branch: seq<Term>) {
    if branch == [] then q.o.startswith && exists r :: r in q.rows && !q.l.isStop(r.entry.token)
    else !q.o.startswith && exists r, t :: Miscounts(q, branch, r, t)
  }

  /** If all terms must match, that is exactly when a branch of words fails. */
  lemma AllTermsFailIff(q: Search, branch: seq<Term>)
    requires WfSearch(q) && AllWords(branch) && q.o.all
    ensures BranchScores(q, branch).Err? <==> Breaks(q, branch)
  {
    if branch == [] {
      if q.o.startswith { EmptyBranchFailsIff(q); } else { EmptyBranchSucceeds(q); }
    } else if q.o.startswith {
      StartswithNeverFails(q, branch);
    } else {
      CountingFailsIff(q, branch);
    }
  }

  lemma EmptyBranchSucceeds(q: Search)
    requires q.o.all && !q.o.startswith
    ensures BranchScores(q, []).Ok?
  {
    assert |Texts([])| == 0;
    forall d | d in Docs(Hits(q, [])) ensures Found(Hits(q, []), d) != {} { DocsIff(Hits(q, []), d); }
  }

  /** A text that holds the separator starts no token, so that its branch accepts nothing; others score. */
  lemma StartswithNeverFails(q: Search, branch: seq<Term>)
    requires WfSearch(q) && AllWords(branch) && branch != [] && q.o.all && q.o.startswith
    ensures BranchScores(q, branch).Ok?
  {
    hide Hits, Found, TokenScore, WfRow, Selects, TokenizeContent;
    forall d | Outcome(q, branch, d).accepted
      ensures Scorable(q.l.isStop, Texts(branch), Outcome(q, branch, d).found)
    {
      forall f | f in Found(Hits(q, branch), d) ensures TokenScore(q.l.isStop, Texts(branch), f).Some? {
        var r, t := FoundBySome(q, branch, d, f);
        ScorableIffBarFree(q.index, true, t, r);
        UnscoredIff(q.l.isStop, Texts(branch), f);
        assert t.text in Texts(branch);
        if SearchKeys.BAR in t.text {
          var g :| g in Found(Hits(q, branch), d) && t.text <= g;
          var r', t' := FoundBySome(q, branch, d, g);
          BarStartsNothing(t.text, r');
          assert false;
        }
      }
    }
  }

  lemma BarStartsNothing(text: string, r: Row)
    requires WfRow(r) && SearchKeys.BAR in text
    ensures !(text <= r.entry.token)
  {
  }

  lemma CountingFailsIff(q: Search, branch: seq<Term>)
    requires WfSearch(q) && AllWords(branch) && branch != [] && q.o.all && !q.o.startswith
    ensures BranchScores(q, branch).Err? <==> exists r, t :: Miscounts(q, branch, r, t)
  {
    hide Hits, Found, TokenScore, WfRow, TokenizeContent, Selects, SelectedTokens;
    var searched := Texts(branch);
    assert branch[0].text in searched;
    if r, t :| Miscounts(q, branch, r, t) {
      var d, f := r.entry.doc, r.entry.token;
      FoundAreSelected(q, branch, d);
      SelectedToken(q, branch, r, t);
      UnscoredIff(q.l.isStop, searched, f);
      FoundInDocs(Hits(q, branch), d, f);
      assert !Scorable(q.l.isStop, searched, Outcome(q, branch, d).found);
    } else {
      forall d | d in Docs(Hits(q, branch)) && Outcome(q, branch, d).accepted
        ensures Scorable(q.l.isStop, searched, Outcome(q, branch, d).found)
      {
        forall f | f in Outcome(q, branch, d).found ensures TokenScore(q.l.isStop, searched, f).Some? {
          UnscoredIff(q.l.isStop, searched, f);
          FoundAreSelected(q, branch, d);
          var r, t := FoundBySome(q, branch, d, f);
          ScorableIffBarFree(q.index, false, t, r);
          assert forall c :: c in branch ==> c.text in searched;
          assert !Miscounts(q, branch, r, t);
        }
      }
    }
  }

  lemma SelectedToken(q: Search, branch: seq<Term>, r: Row, t: Term)
    requires r in q.rows && t in branch && Selects(q.index, q.o.startswith, t, r)
    ensures r.entry.token in SelectedTokens(q, branch, r.entry.doc)
  {
    hide Selects;
  }

  lemma FoundAlone(q: Search, t: Term, doc: int, f: string)
    ensures f in Found(Hits(q, [t]), doc)
            <==> exists r :: r in q.rows && r.entry.doc == doc && r.entry.token == f
                             && Selects(q.index, q.o.startswith, t, r)
  {
  }

  /** A found token scores against a text that holds the key separator just when it is a stop word. */
  lemma BarTextScores(q: Search, t: Term, doc: int, f: string)
    requires WfSearch(q) && SearchKeys.BAR in t.text && f in Found(Hits(q, [t]), doc)
    ensures TokenScore(q.l.isStop, {t.text}, f).Some? <==> q.l.isStop(f)
  {
    hide WfRow, Found, Hits, Selects;
    FoundAlone(q, t, doc, f);
    var r :| r in q.rows && r.entry.token == f && Selects(q.index, q.o.startswith, t, r);
    ScorableIffBarFree(q.index, q.o.startswith, t, r);
    assert f[..|f|] == f;
    forall k: nat | k <= |f| ensures f[..k] != t.text {
      assert f[..k] <= f;
    }
  }

  /**
   Searching for one word fails exactly when the word holds the key separator and its scan nevertheless reaches
   the row of a token that is no stop word: the token cannot be scored.
   */
  lemma FailsIffBarTextSelects(q: Search, t: Term)
    requires WfSearch(q) && !q.o.all && t.kind == Word && t.text != ""
    ensures BranchScores(q, [t]).Err?
            <==> SearchKeys.BAR in t.text
                 && exists r :: r in q.rows && Selects(q.index, q.o.startswith, t, r) && !q.l.isStop(r.entry.token)
  {
    hide WfSearch, Found, Hits, Selects, TokenScore;
    if SearchKeys.BAR !in t.text {
      BranchSucceeds(q, [t]);
    } else {
      assert Texts([t]) == {t.text} by { assert t in [t]; }
      if r :| r in q.rows && Selects(q.index, q.o.startswith, t, r) && !q.l.isStop(r.entry.token) {
        FoundAlone(q, t, r.entry.doc, r.entry.token);
        BarTextScores(q, t, r.entry.doc, r.entry.token);
        FoundInDocs(Hits(q, [t]), r.entry.doc, r.entry.token);
        assert !Scorable(q.l.isStop, {t.text}, Outcome(q, [t], r.entry.doc).found);
      } else {
        forall d, f | f in Found(Hits(q, [t]), d) ensures TokenScore(q.l.isStop, {t.text}, f).Some? {
          FoundAlone(q, t, d, f);
          BarTextScores(q, t, d, f);
        }
      }
    }
  }

  lemma FoundInDocs(fetched: set<Row>, doc: int, f: string)
    requires f in Found(fetched, doc)
    ensures doc in Docs(fetched)
  {
  }

  /**
   When all terms must match, a branch without any term selects the whole table: with startswith the search
   then fails exactly when the table holds a token that is no stop word.
   */
  lemma EmptyBranchFailsIff(q: Search)
    requires q.o.all && q.o.startswith
    ensures BranchScores(q, []).Err? <==> exists r :: r in q.rows && !q.l.isStop(r.entry.token)
  {
    var h := Hits(q, []);
    assert h == q.rows && Texts([]) == {};
    if r :| r in q.rows && !q.l.isStop(r.entry.token) {
      assert r.entry.token in Found(h, r.entry.doc) && r.entry.doc in Docs(h);
      assert TokenScore(q.l.isStop, {}, r.entry.token).None?;
      assert !Scorable(q.l.isStop, {}, Outcome(q, [], r.entry.doc).found);
    } else {
      forall d, f | f in Found(h, d) ensures TokenScore(q.l.isStop, {}, f).Some? {
        var r :| r in h && r.entry.token == f;
      }
    }
  }

  // ------------------------------------------------------------- results of a search

  lemma {:induction false} TotalOk(q: Search, branches: seq<seq<Term>>)
    requires forall b :: b in branches ==> BranchScores(q, b).Ok?
    ensures TotalScores(q, branches).Ok?
    ensures forall d :: d in TotalScores(q, branches).value
                        <==> exists b :: b in branches && d in BranchScores(q, b).value
  {
    hide BranchScores;
    if branches != [] {
      var n := |branches| - 1;
      assert branches == branches[..n] + [branches[n]];
      TotalOk(q, branches[..n]);
    }
  }

  /** A search fails exactly when one of its branches does. */
  lemma {:induction false} TotalFailsIff(q: Search, branches: seq<seq<Term>>)
    ensures TotalScores(q, branches).Err? <==> exists b :: b in branches && BranchScores(q, b).Err?
  {
    hide BranchScores;
    if branches != [] {
      var n := |branches| - 1;
      assert branches == branches[..n] + [branches[n]];
      TotalFailsIff(q, branches[..n]);
    }
  }

  lemma {:induction false} SinglesOf(branches: seq<seq<Term>>, b: seq<Term>)
    ensures b in Singles(branches) <==> exists c, t :: c in branches && t in c && b == [t]
  {
    if branches != [] {
      var n := |branches| - 1;
      assert branches == branches[..n] + [branches[n]];
      SinglesOf(branches[..n], b);
      EachAloneOf(branches[n], b);
    }
  }

  lemma EachAloneOf(c: seq<Term>, b: seq<Term>)
    ensures b in EachAlone(c) <==> exists t :: t in c && b == [t]
  {
    if t :| t in c && b == [t] {
      var i :| 0 <= i < |c| && c[i] == t;
      assert EachAlone(c)[i] == b;
    }
  }

  predicate AllSound(branches: seq<seq<Term>>) {
    forall b :: b in branches ==> b == [] || IsSound(b)
  }

  /** Some term of some branch matches the entry. */
  predicate Wanted(q: Search, branches: seq<seq<Term>>, e: Entry) {
    exists b, t :: b in branches && t in b && Matches(q.o.startswith, t, e)
  }

  /** The documents of one term. */
  lemma TermFinds(q: Search, t: Term, d: int)
    requires WfSearch(q) && IsSound([t]) && !q.o.all
    ensures BranchScores(q, [t]).Ok?
    ensures d in BranchScores(q, [t]).value
            <==> exists r :: r in q.rows && r.index == q.index && r.entry.doc == d
                             && Matches(q.o.startswith, t, r.entry)
  {
    hide WfRow, Selects, Matches, Sum, TokenScore;
    BranchSucceeds(q, [t]);
    FoundFits(q, [t], d);
    forall r | r in q.rows
      ensures Passes(q.index, q.o.startswith, [t], r) <==> r.index == q.index && Matches(q.o.startswith, t, r.entry)
    {
      assert t in [t];
      SelectsIsMatches(q.index, q.o.startswith, t, r);
    }
  }

  /** If any term will do, the search succeeds and finds exactly the documents with a row some term matches. */
  lemma AnyTermResult(q: Search, branches: seq<seq<Term>>, d: int)
    requires WfSearch(q) && AllSound(branches) && !q.o.all
    ensures TotalScores(q, Effective(q.o, branches)).Ok?
    ensures d in TotalScores(q, Effective(q.o, branches)).value
            <==> exists r :: r in q.rows && r.index == q.index && r.entry.doc == d && Wanted(q, branches, r.entry)
  {
    hide WfSearch, BranchScores, Matches;
    var singles := Singles(branches);
    forall b | b in singles ensures BranchScores(q, b).Ok? {
      SinglesOf(branches, b);
      var c, t :| c in branches && t in c && b == [t];
      TermFinds(q, t, d);
    }
    TotalOk(q, singles);
    if b :| b in singles && d in BranchScores(q, b).value {
      SinglesOf(branches, b);
      var c, t :| c in branches && t in c && b == [t];
      TermFinds(q, t, d);
    }
    if r :| r in q.rows && r.index == q.index && r.entry.doc == d && Wanted(q, branches, r.entry) {
      var c, t :| c in branches && t in c && Matches(q.o.startswith, t, r.entry);
      SinglesOf(branches, [t]);
      TermFinds(q, t, d);
    }
  }

  /**
   Something was found, and with startswith each searched text starts some found token; without, the found tokens
   are the searched ones, or there is but one and it has as many tokens as were searched.
   */
  predicate Accepts(cc: CharClass, startswith: bool, searched: set<string>, found: set<string>) {
    && found != {}
    && if startswith then forall s :: s in searched ==> exists f :: f in found && s <= f
       else searched == found
            || (|found| == 1 && forall f :: f in found ==> |TokenizeContent(cc, f)| == |searched|)
  }

  /** If all terms must match, that is exactly when a document is accepted for a sound branch or one without terms. */
  lemma AllTermsAccept(q: Search, b: seq<Term>, d: int)
    requires WfSearch(q) && (b == [] || IsSound(b)) && q.o.all
    ensures b != [] || !q.o.startswith ==> BranchScores(q, b).Ok?
    ensures BranchScores(q, b).Ok?
            ==> (d in BranchScores(q, b).value
                 <==> Accepts(q.l.cc, q.o.startswith, Texts(b), Found(Hits(q, b), d)))
  {
    hide WfSearch, Hits, Found, Sum, TokenScore, TokenizeContent;
    if b == [] {
      if !q.o.startswith { EmptyBranchSucceeds(q); }
    } else {
      BranchSucceeds(q, b);
      FoundFits(q, b, d);
      assert b[0].text in Texts(b);
    }
    var found := Found(Hits(q, b), d);
    DocsIff(Hits(q, b), d);
    if |found| == 1 {
      var f :| f in found;
      OnlyOne(found, f);
    }
  }

  /** A document accepted for a single token against several searched ones gets no score for it. */
  lemma LoneTokenScoresNothing(q: Search, b: seq<Term>, d: int)
    requires WfSearch(q) && IsSound(b) && q.o.all && !q.o.startswith && |Found(Hits(q, b), d)| == 1 != |Texts(b)|
    requires BranchScores(q, b).Ok? && d in BranchScores(q, b).value
    ensures BranchScores(q, b).value[d] == 0.0
  {
    hide WfSearch, Hits, Found, TokenScore, TokenizeContent;
    assert Outcome(q, b, d).found == {};
    SumOfNone(q.l.isStop, Texts(b));
  }

  lemma DocsIff(fetched: set<Row>, d: int)
    ensures d in Docs(fetched) <==> Found(fetched, d) != {}
  {
    if r :| r in fetched && r.entry.doc == d {
      assert r.entry.token in Found(fetched, d);
    }
  }

  /** There is something searched, and a document's rows give it all of that. */
  predicate HoldsAll(q: Search, branch: seq<Term>, d: int) {
    && branch != []
    && forall t :: t in branch
                   ==> exists r :: r in q.rows && r.index == q.index && r.entry.doc == d && r.entry.token == t.text
                                   && FieldFits(t, r.entry)
  }

  /** A branch without terms meets a token it cannot score. */
  predicate EmptyBreaks(q: Search, branches: seq<seq<Term>>) {
    [] in branches && q.o.startswith && exists r :: r in q.rows && !q.l.isStop(r.entry.token)
  }

  /** If all terms must match, sound branches and branches without terms fail only in that way. */
  lemma AllTermsSucceedIff(q: Search, branches: seq<seq<Term>>)
    requires WfSearch(q) && AllSound(branches) && q.o.all
    ensures TotalScores(q, branches).Ok? <==> !EmptyBreaks(q, branches)
  {
    hide WfSearch, BranchScores;
    TotalFailsIff(q, branches);
    forall b | b in branches
      ensures BranchScores(q, b).Err?
              <==> b == [] && q.o.startswith && exists r :: r in q.rows && !q.l.isStop(r.entry.token)
    {
      if b != [] { BranchSucceeds(q, b); }
      else if q.o.startswith { EmptyBranchFailsIff(q); }
      else { EmptyBranchSucceeds(q); }
    }
  }

  lemma SearchedAreFound(q: Search, b: seq<Term>, d: int, s: string)
    requires WfSearch(q) && IsSound(b) && HoldsAll(q, b, d) && s in Texts(b)
    ensures s in Found(Hits(q, b), d)
  {
    hide WfSearch, Hits, Found, IsSound;
    var t :| t in b && t.text == s;
    var r :| r in q.rows && r.index == q.index && r.entry.doc == d && r.entry.token == s && FieldFits(t, r.entry);
    assert Matches(q.o.startswith, t, r.entry);
    FoundIff(q, b, d, s);
  }

  lemma SomethingSearched(q: Search, b: seq<Term>, d: int)
    requires HoldsAll(q, b, d)
    ensures b != [] && Texts(b) != {}
  {
    assert b[0].text in Texts(b);
  }

  lemma AllSearchedAccepted(cc: CharClass, startswith: bool, searched: set<string>, found: set<string>)
    requires searched != {} && searched <= found && (!startswith ==> found <= searched)
    ensures Accepts(cc, startswith, searched, found)
  {
    hide TokenizeContent;
    forall s | s in searched ensures s in found && s <= s {
      assert s[..|s|] == s;
    }
  }

  lemma HoldsAllAccepted(q: Search, b: seq<Term>, d: int)
    requires WfSearch(q) && IsSound(b) && q.o.all && HoldsAll(q, b, d)
    ensures BranchScores(q, b).Ok? && d in BranchScores(q, b).value
  {
    hide WfSearch, Hits, Found, BranchScores, HoldsAll, IsSound, Texts, Accepts, TokenScore;
    SomethingSearched(q, b, d);
    var searched, found := Texts(b), Found(Hits(q, b), d);
    forall s | s in searched ensures s in found {
      SearchedAreFound(q, b, d, s);
    }
    FoundFits(q, b, d);
    AllSearchedAccepted(q.l.cc, q.o.startswith, searched, found);
    AllTermsAccept(q, b, d);
  }

  /** If all terms must match, documents that hold all of them, each in its field, are found. */
  lemma AllTermsFind(q: Search, branches: seq<seq<Term>>, b: seq<Term>, d: int)
    requires WfSearch(q) && AllSound(branches) && q.o.all
    requires b in branches && HoldsAll(q, b, d)
    ensures TotalScores(q, branches).Ok? <==> !EmptyBreaks(q, branches)
    ensures TotalScores(q, branches).Ok? ==> d in TotalScores(q, branches).value
  {
    hide WfSearch, BranchScores, IsSound;
    AllTermsSucceedIff(q, branches);
    TotalFailsIff(q, branches);
    if TotalScores(q, branches).Ok? {
      TotalOk(q, branches);
      HoldsAllAccepted(q, b, d);
    }
  }
}
