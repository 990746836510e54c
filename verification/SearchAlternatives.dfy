/** Queries divided by " or ": what is found for one half or the other. */
module SearchAlternatives {
  import opened Fields
  import opened SearchQuery
  import opened SearchMatching

  /** The text a lower-cased has no " or ", neither inside nor overlapping one that follows. */
  predicate IsHalf(l: Locale, a: string) {
    IsLower(l, " or ") && OrFirstBehind(Lower(l, a))
  }

  /** The texts of the branches of "a or b" are a and those of b. */
  lemma OrTexts(l: Locale, a: string, b: string)
    requires IsHalf(l, a)
    ensures SplitOr(Lower(l, a)) == [Lower(l, a)]
    ensures SplitOr(Lower(l, a + " or " + b)) == SplitOr(Lower(l, a)) + SplitOr(Lower(l, b))
  {
    LowerFixed(l, " or ");
    LowerConcat(l, a, " or ");
    LowerConcat(l, a + " or ", b);
    SplitOrFirst(Lower(l, a), Lower(l, b));
    SplitOrNone(Lower(l, a));
  }

  /** It can be read if and only if both halves can. */
  lemma OrReadable(l: Locale, a: string, b: string)
    requires IsHalf(l, a)
    ensures Readable(l, a + " or " + b) <==> Readable(l, a) && Readable(l, b)
  {
    OrTexts(l, a, b);
    hide SplitOr, Lower, Scan, Classifiable;
  }

  /** Branch by branch the same terms, in whatever order. */
  predicate SameTerms(xs: seq<seq<Term>>, ys: seq<seq<Term>>) {
    |xs| == |ys| && forall i :: 0 <= i < |xs| ==> multiset(xs[i]) == multiset(ys[i])
  }

  ghost predicate ReadsEach(l: Locale, texts: seq<string>, stopwords: bool, branches: seq<seq<Term>>) {
    |branches| == |texts| && forall i :: 0 <= i < |texts| ==> Reads(l, texts[i], stopwords, branches[i])
  }

  lemma OrReads(l: Locale, a: string, b: string, stopwords: bool, branches: seq<seq<Term>>,
                left: seq<seq<Term>>, right: seq<seq<Term>>)
    requires IsHalf(l, a) && ReadsAll(l, a + " or " + b, stopwords, branches)
    requires ReadsAll(l, a, stopwords, left) && ReadsAll(l, b, stopwords, right)
    ensures SameTerms(branches, left + right)
  {
    hide SplitOr, Lower, IsHalf, Reads, SameTerms;
    OrTexts(l, a, b);
    BothRead(l, SplitOr(Lower(l, a)), SplitOr(Lower(l, b)), stopwords, branches, left, right);
  }

  lemma BothRead(l: Locale, s: seq<string>, t: seq<string>, stopwords: bool, branches: seq<seq<Term>>,
                 left: seq<seq<Term>>, right: seq<seq<Term>>)
    requires ReadsEach(l, s + t, stopwords, branches)
    requires ReadsEach(l, s, stopwords, left) && ReadsEach(l, t, stopwords, right)
    ensures SameTerms(branches, left + right)
  {
    hide Reads;
    forall i | 0 <= i < |branches| ensures multiset(branches[i]) == multiset((left + right)[i]) {
      assert Reads(l, (s + t)[i], stopwords, branches[i]) && Reads(l, (s + t)[i], stopwords, (left + right)[i]);
      SameReading(l, (s + t)[i], stopwords, branches[i], (left + right)[i]);
    }
  }

  lemma SameReading(l: Locale, text: string, stopwords: bool, x: seq<Term>, y: seq<Term>)
    requires Reads(l, text, stopwords, x) && Reads(l, text, stopwords, y)
    ensures multiset(x) == multiset(y)
  {
    hide Scan, Classifiable, ClassifyAll, ExpandAll, Stays;
    forall t ensures multiset(x)[t] == multiset(y)[t] {
    }
  }

  lemma SameElements<T>(x: seq<T>, y: seq<T>)
    requires multiset(x) == multiset(y)
    ensures |x| == |y| && forall t :: t in x <==> t in y
  {
    assert forall t :: t in x <==> t in multiset(x);
    assert forall t :: t in y <==> t in multiset(y);
    assert |multiset(x)| == |x| && |multiset(y)| == |y|;
  }

  /** The scores of a branch do not depend on the order of its terms. */
  lemma SameScores(q: Search, x: seq<Term>, y: seq<Term>)
    requires multiset(x) == multiset(y)
    ensures BranchScores(q, x) == BranchScores(q, y)
  {
    SameElements(x, y);
    assert Texts(x) == Texts(y);
    hide Selects;
    assert Hits(q, x) == Hits(q, y);
    hide Texts, Hits;
    assert forall d :: Outcome(q, x, d) == Outcome(q, y, d);
    hide Outcome, Scorable, Sum, Docs;
    assert HasExact(x) == HasExact(y) && Fails(q, x) == Fails(q, y);
    assert ScoresOf(q, x, Docs(Hits(q, x))) == ScoresOf(q, y, Docs(Hits(q, y)));
  }

  /** The branches searched for xs are searched for ys as well, up to the order of terms. */
  lemma SameSearched(q: Search, xs: seq<seq<Term>>, ys: seq<seq<Term>>, b: seq<Term>) returns (c: seq<Term>)
    requires SameTerms(xs, ys) && b in Effective(q.o, xs)
    ensures c in Effective(q.o, ys) && BranchScores(q, b) == BranchScores(q, c)
  {
    hide BranchScores;
    if q.o.all {
      var i :| 0 <= i < |xs| && xs[i] == b;
      c := ys[i];
      SameScores(q, b, c);
    } else {
      c := b;
      SinglesOf(xs, b);
      SinglesOf(ys, b);
      var x, t :| x in xs && t in x && b == [t];
      var i :| 0 <= i < |xs| && xs[i] == x;
      SameElements(xs[i], ys[i]);
      assert ys[i] in ys && t in ys[i];
    }
  }

  lemma EffectiveConcat(o: Options, xs: seq<seq<Term>>, ys: seq<seq<Term>>, b: seq<Term>)
    ensures b in Effective(o, xs + ys) <==> b in Effective(o, xs) || b in Effective(o, ys)
  {
    SinglesOf(xs + ys, b);
    SinglesOf(xs, b);
    SinglesOf(ys, b);
  }

  /** What is found: the search fails if a branch does, and else finds what some branch finds. */
  lemma FoundBySomeBranch(q: Search, branches: seq<seq<Term>>, d: int)
    ensures TotalScores(q, branches).Ok? <==> forall b :: b in branches ==> BranchScores(q, b).Ok?
    ensures TotalScores(q, branches).Ok?
            ==> (d in TotalScores(q, branches).value <==> exists b :: b in branches && d in BranchScores(q, b).value)
  {
    hide BranchScores;
    TotalFailsIff(q, branches);
    if TotalScores(q, branches).Ok? { TotalOk(q, branches); }
  }

  // ------------------------------------------------------------------ scores add up

  /** What one branch adds to the score of a document. */
  ghost function Part(q: Search, b: seq<Term>, d: int): real {
    if BranchScores(q, b).Ok? then Get(BranchScores(q, b).value, d) else 0.0
  }

  ghost function Parts(q: Search, branches: seq<seq<Term>>, d: int): real {
    if branches == [] then 0.0
    else Parts(q, branches[..|branches| - 1], d) + Part(q, branches[|branches| - 1], d)
  }

  lemma {:induction false} TotalIsParts(q: Search, branches: seq<seq<Term>>, d: int)
    requires TotalScores(q, branches).Ok?
    ensures Get(TotalScores(q, branches).value, d) == Parts(q, branches, d)
  {
    hide BranchScores;
    if branches != [] { TotalIsParts(q, branches[..|branches| - 1], d); }
  }

  lemma {:induction false} PartsConcat(q: Search, xs: seq<seq<Term>>, ys: seq<seq<Term>>, d: int)
    ensures Parts(q, xs + ys, d) == Parts(q, xs, d) + Parts(q, ys, d)
  {
    hide Part;
    if ys == [] {
      assert xs + ys == xs;
    } else {
      var n := |ys| - 1;
      assert (xs + ys)[..|xs + ys| - 1] == xs + ys[..n];
      PartsConcat(q, xs, ys[..n], d);
    }
  }

  lemma PartsAlone(q: Search, x: seq<Term>, t: Term, y: seq<Term>, d: int)
    ensures Parts(q, EachAlone(x + [t] + y), d)
            == Parts(q, EachAlone(x), d) + Part(q, [t], d) + Parts(q, EachAlone(y), d)
    ensures Parts(q, EachAlone(x + y), d) == Parts(q, EachAlone(x), d) + Parts(q, EachAlone(y), d)
  {
    hide Part;
    assert EachAlone(x + [t] + y) == EachAlone(x + [t]) + EachAlone(y);
    assert EachAlone(x + [t])[..|x|] == EachAlone(x) && EachAlone(x + y) == EachAlone(x) + EachAlone(y);
    PartsConcat(q, EachAlone(x + [t]), EachAlone(y), d);
    PartsConcat(q, EachAlone(x), EachAlone(y), d);
  }

  lemma {:induction false} PartsPermuted(q: Search, x: seq<Term>, y: seq<Term>, d: int)
    requires multiset(x) == multiset(y)
    ensures Parts(q, EachAlone(x), d) == Parts(q, EachAlone(y), d)
  {
    SameElements(x, y);
    if x != [] {
      var n := |x| - 1;
      var t := x[n];
      assert t in x && t in y;
      var j :| 0 <= j < |y| && y[j] == t;
      var z := y[..j] + y[j + 1..];
      TakenOut(x, n);
      TakenOut(y, j);
      assert x[n + 1..] == [] && x[..n] + [] == x[..n];
      hide Parts, EachAlone;
      Cancel(multiset(x[..n]), multiset(z), t);
      PartsPermuted(q, x[..n], z, d);
      PartsAlone(q, x[..n], t, [], d);
      PartsAlone(q, y[..j], t, y[j + 1..], d);
    }
  }

  lemma TakenOut<T>(s: seq<T>, j: nat)
    requires j < |s|
    ensures s == s[..j] + [s[j]] + s[j + 1..]
    ensures multiset(s) == multiset(s[..j] + s[j + 1..]) + multiset{s[j]}
  {
    assert s == s[..j] + [s[j]] + s[j + 1..];
  }

  lemma Cancel<T(!new)>(a: multiset<T>, b: multiset<T>, t: T)
    requires a + multiset{t} == b + multiset{t}
    ensures a == b
  {
    forall x ensures a[x] == b[x] {
      assert (a + multiset{t})[x] == (b + multiset{t})[x];
    }
  }

  lemma {:induction false} SameParts(q: Search, xs: seq<seq<Term>>, ys: seq<seq<Term>>, d: int)
    requires SameTerms(xs, ys)
    ensures Parts(q, Effective(q.o, xs), d) == Parts(q, Effective(q.o, ys), d)
  {
    hide Part, EachAlone;
    if xs != [] {
      var n := |xs| - 1;
      SameParts(q, xs[..n], ys[..n], d);
      if q.o.all {
        SameScores(q, xs[n], ys[n]);
        SamePart(q, xs[n], ys[n], d);
      } else {
        PartsConcat(q, Singles(xs[..n]), EachAlone(xs[n]), d);
        PartsConcat(q, Singles(ys[..n]), EachAlone(ys[n]), d);
        PartsPermuted(q, xs[n], ys[n], d);
      }
    }
  }

  lemma SamePart(q: Search, x: seq<Term>, y: seq<Term>, d: int)
    requires BranchScores(q, x) == BranchScores(q, y)
    ensures Part(q, x, d) == Part(q, y, d)
  {
  }

  lemma {:induction false} SinglesConcat(xs: seq<seq<Term>>, ys: seq<seq<Term>>)
    ensures Singles(xs + ys) == Singles(xs) + Singles(ys)
  {
    if ys == [] {
      assert xs + ys == xs;
    } else {
      var n := |ys| - 1;
      assert (xs + ys)[..|xs + ys| - 1] == xs + ys[..n];
      SinglesConcat(xs, ys[..n]);
    }
  }

  /** The score of a document for "a or b" is the sum of its scores for a and for b. */
  lemma OrAddsScores(q: Search, a: string, b: string, stopwords: bool, branches: seq<seq<Term>>,
                     left: seq<seq<Term>>, right: seq<seq<Term>>, d: int)
    requires IsHalf(q.l, a) && ReadsAll(q.l, a + " or " + b, stopwords, branches)
    requires ReadsAll(q.l, a, stopwords, left) && ReadsAll(q.l, b, stopwords, right)
    requires TotalScores(q, Effective(q.o, branches)).Ok?
    ensures TotalScores(q, Effective(q.o, left)).Ok? && TotalScores(q, Effective(q.o, right)).Ok?
    ensures Get(TotalScores(q, Effective(q.o, branches)).value, d)
            == Get(TotalScores(q, Effective(q.o, left)).value, d) + Get(TotalScores(q, Effective(q.o, right)).value, d)
  {
    hide ReadsAll, IsHalf, TotalScores, Parts, Get;
    OrFindsEither(q, a, b, stopwords, branches, left, right, d);
    OrReads(q.l, a, b, stopwords, branches, left, right);
    SameParts(q, branches, left + right, d);
    SinglesConcat(left, right);
    PartsConcat(q, Effective(q.o, left), Effective(q.o, right), d);
    TotalIsParts(q, Effective(q.o, branches), d);
    TotalIsParts(q, Effective(q.o, left), d);
    TotalIsParts(q, Effective(q.o, right), d);
  }

  // ------------------------------------------------------------------- what is found

  /**
   The documents found for "a or b" are those found for a or for b, with any term sufficing or all of them required;
   the search fails if and only if one of the two does.
   */
  lemma OrFindsEither(q: Search, a: string, b: string, stopwords: bool, branches: seq<seq<Term>>,
                      left: seq<seq<Term>>, right: seq<seq<Term>>, d: int)
    requires IsHalf(q.l, a) && ReadsAll(q.l, a + " or " + b, stopwords, branches)
    requires ReadsAll(q.l, a, stopwords, left) && ReadsAll(q.l, b, stopwords, right)
    ensures var r, r1, r2 := TotalScores(q, Effective(q.o, branches)), TotalScores(q, Effective(q.o, left)),
                             TotalScores(q, Effective(q.o, right));
            && (r.Ok? <==> r1.Ok? && r2.Ok?)
            && (r.Ok? ==> (d in r.value <==> d in r1.value || d in r2.value))
  {
    OrReads(q.l, a, b, stopwords, branches, left, right);
    hide ReadsAll, IsHalf, BranchScores, TotalScores, Effective;
    var both := left + right;
    FoundBySomeBranch(q, Effective(q.o, branches), d);
    FoundBySomeBranch(q, Effective(q.o, left), d);
    FoundBySomeBranch(q, Effective(q.o, right), d);
    forall x | x in Effective(q.o, branches)
      ensures exists y :: (y in Effective(q.o, left) || y in Effective(q.o, right))
                          && BranchScores(q, x) == BranchScores(q, y)
    {
      var y := SameSearched(q, branches, both, x);
      EffectiveConcat(q.o, left, right, y);
    }
    forall y | y in Effective(q.o, left) || y in Effective(q.o, right)
      ensures exists x :: x in Effective(q.o, branches) && BranchScores(q, x) == BranchScores(q, y)
    {
      EffectiveConcat(q.o, left, right, y);
      var x := SameSearched(q, both, branches, y);
    }
  }
}
