/** Normalising, tokenizing and cleaning the value of a text field: djangae/contrib/search/fields.py. */
module Fields {
  import opened Common
  import opened Strings
  import opened Tokens

  /** The character classes, the lower-casing of single characters, and which tokens are stop words. */
  datatype Locale = Locale(cc: CharClass, lower: char -> string, isStop: string -> bool)

  /** Lower-casing is idempotent. */
  ghost predicate WfLocale(l: Locale) {
    WfChars(l.cc) && forall c, d :: d in l.lower(c) ==> l.lower(d) == [d]
  }

  /** s.lower() */
  function Lower(l: Locale, s: string): string {
    if s == "" then "" else l.lower(s[0]) + Lower(l, s[1..])
  }

  /** Text that lower-casing leaves alone. */
  predicate IsLower(l: Locale, s: string) {
    forall c :: c in s ==> l.lower(c) == [c]
  }

  lemma {:induction false} LowerIsLower(l: Locale, s: string)
    requires WfLocale(l)
    ensures IsLower(l, Lower(l, s))
  {
    if s != "" {
      LowerIsLower(l, s[1..]);
    }
  }

  lemma {:induction false} LowerConcat(l: Locale, a: string, b: string)
    ensures Lower(l, a + b) == Lower(l, a) + Lower(l, b)
  {
    if a == "" {
      assert a + b == b;
    } else {
      assert (a + b)[1..] == a[1..] + b;
      LowerConcat(l, a[1..], b);
    }
  }

  /** Every character is lower-cased in its place. */
  lemma LowerInPlace(l: Locale, a: string, c: char, b: string)
    ensures Lower(l, a + [c] + b) == Lower(l, a) + l.lower(c) + Lower(l, b)
  {
    LowerConcat(l, a + [c], b);
    LowerConcat(l, a, [c]);
    assert [c][1..] == "" && Lower(l, [c]) == l.lower(c);
  }

  lemma {:induction false} LowerFixed(l: Locale, s: string)
    requires IsLower(l, s)
    ensures Lower(l, s) == s
  {
    if s != "" {
      assert s[0] in s && forall c :: c in s[1..] ==> c in s;
      LowerFixed(l, s[1..]);
    }
  }

  /** Alphanumeric lower-case text. */
  predicate IsPlainText(l: Locale, s: string) {
    IsAlnum(l.cc, s) && IsLower(l, s)
  }

  // --------------------------------------------------------------- normalize_value

  function SpaceFree(cc: CharClass, s: string): bool {
    forall c :: c in s ==> !cc.space(c)
  }

  /** The length of the longest prefix without white space. */
  function WordLength(cc: CharClass, s: string): (n: nat)
    ensures n <= |s| && SpaceFree(cc, s[..n]) && (n < |s| ==> cc.space(s[n]))
  {
    if s == "" || cc.space(s[0]) then 0
    else
      var n := WordLength(cc, s[1..]);
      assert s[..n + 1] == [s[0]] + s[1..][..n];
      n + 1
  }

  /** s.split() */
  function Words(cc: CharClass, s: string): (r: seq<string>)
    ensures forall w :: w in r ==> w != "" && SpaceFree(cc, w) && forall c :: c in w ==> c in s
    decreases |s|
  {
    if s == "" then []
    else if cc.space(s[0]) then Words(cc, s[1..])
    else
      var n := WordLength(cc, s);
      assert forall c :: c in s[..n] || c in s[n..] ==> c in s;
      [s[..n]] + Words(cc, s[n..])
  }

  lemma {:induction false} WordLengthConcat(cc: CharClass, a: string, w: char, b: string)
    requires cc.space(w)
    ensures WordLength(cc, a + [w] + b) == WordLength(cc, a)
  {
    if a == "" {
      assert a + [w] + b == [w] + b;
    } else {
      assert (a + [w] + b)[1..] == a[1..] + [w] + b;
      WordLengthConcat(cc, a[1..], w, b);
    }
  }

  /** White space divides: the words on its left are followed by those on its right. */
  lemma {:induction false} WordsConcat(cc: CharClass, a: string, w: char, b: string)
    requires cc.space(w)
    ensures Words(cc, a + [w] + b) == Words(cc, a) + Words(cc, b)
    decreases |a|
  {
    var s := a + [w] + b;
    WordsUnfold(cc, a);
    WordsUnfold(cc, s);
    hide Words, WordLength;
    if a == "" {
      assert s[1..] == b;
    } else if cc.space(a[0]) {
      CutBefore(a, w, b, 1);
      WordsConcat(cc, a[1..], w, b);
    } else {
      var n := WordLength(cc, a);
      WordLengthConcat(cc, a, w, b);
      CutBefore(a, w, b, n);
      WordsConcat(cc, a[n..], w, b);
      Regroup(a[..n], Words(cc, a[n..]), Words(cc, b));
    }
  }

  lemma CutBefore(a: string, w: char, b: string, n: nat)
    requires n <= |a|
    ensures (a + [w] + b)[..n] == a[..n] && (a + [w] + b)[n..] == a[n..] + [w] + b
  {
  }

  lemma Regroup<T>(x: T, u: seq<T>, v: seq<T>)
    ensures [x] + (u + v) == [x] + u + v
  {
  }

  lemma WordsUnfold(cc: CharClass, s: string)
    ensures Words(cc, s) == if s == "" then [] else if cc.space(s[0]) then Words(cc, s[1..])
                            else [s[..WordLength(cc, s)]] + Words(cc, s[WordLength(cc, s)..])
  {
  }

  /** Text without white space is a single word. */
  lemma WordsOfOne(cc: CharClass, s: string)
    requires s != "" && SpaceFree(cc, s)
    ensures Words(cc, s) == [s]
  {
    var n := WordLength(cc, s);
    assert n == |s| && s[..n] == s && s[n..] == "";
  }

  function NormalizeValue(l: Locale, value: Option<string>): Option<string> {
    if value.None? then None else Some(Join(Words(l.cc, Lower(l, value.value)), SPACE))
  }

  /** Splitting a normalised value at spaces gives back its words; they are lower-case and free of white space. */
  lemma NormalizedWords(l: Locale, value: string)
    requires WfLocale(l)
    ensures var words := Words(l.cc, Lower(l, value));
            && (words != [] ==> Split(NormalizeValue(l, Some(value)).value, SPACE) == words)
            && (words == [] ==> NormalizeValue(l, Some(value)) == Some(""))
            && forall w :: w in words ==> w != "" && IsLower(l, w) && SpaceFree(l.cc, w)
  {
    var words := Words(l.cc, Lower(l, value));
    LowerIsLower(l, value);
    assert forall w :: w in words ==> SPACE !in w;
    if words != [] {
      SplitJoin(words, SPACE);
    }
  }

  // ------------------------------------------------------------------- clean_token

  const NOTES: set<char> := {'a', 'b', 'c', 'd', 'e', 'f', 'g', 'j', 'x'}

  /** The names of notes, and those of languages written with a hash. */
  lemma NotesAre(c: char)
    ensures c in NOTES <==> 'a' <= c <= 'g' || c == 'j' || c == 'x'
  {
  }

  function StripLeft(cc: CharClass, s: string): string {
    if s != "" && cc.space(s[0]) then StripLeft(cc, s[1..]) else s
  }

  function StripRight(cc: CharClass, s: string): string {
    if s != "" && cc.space(s[|s| - 1]) then StripRight(cc, s[..|s| - 1]) else s
  }

  /** s.strip() */
  function Strip(cc: CharClass, s: string): string {
    StripRight(cc, StripLeft(cc, s))
  }

  function TrailingPluses(s: string): (n: nat)
    ensures n <= |s|
  {
    if s != "" && s[|s| - 1] == '+' then 1 + TrailingPluses(s[..|s| - 1]) else 0
  }

  function Pluses(n: nat): (r: string)
    ensures |r| == n && forall c :: c in r ==> c == '+'
  {
    seq(n, _ => '+')
  }

  /** Plus signs stay only at the end. */
  function CleanPluses(s: string): string {
    var n := TrailingPluses(s);
    Remove(s[..|s| - n], '+') + Pluses(n)
  }

  /** Hashes stay only in a musical note or the name of a language. */
  function CleanHashes(s: string): string {
    if '#' in s && (|s| > 2 || s[|s| - 1] != '#' || s[0] !in NOTES) then Remove(s, '#') else s
  }

  function CleanToken(cc: CharClass, token: string): string {
    CleanHashes(CleanPluses(Strip(cc, token)))
  }

  /** The loop that counts and cuts off the trailing plus signs. */
  method CleanPlusesLoop(s: string) returns (r: string)
    ensures r == CleanPluses(s)
  {
    r := s;
    var plusCount := 0;
    while |r| > 0 && r[|r| - 1] == '+'
      invariant plusCount + |r| == |s| && r == s[..|r|]
      invariant plusCount + TrailingPluses(r) == TrailingPluses(s)
      decreases |r|
    {
      assert r[..|r| - 1] == s[..|r| - 1];
      r := r[..|r| - 1];
      plusCount := plusCount + 1;
    }
    r := Remove(r, '+') + Pluses(plusCount);
  }

  method CleanTokenLoop(cc: CharClass, token: string) returns (r: string)
    ensures r == CleanToken(cc, token)
  {
    hide CleanPluses, Strip, Remove;
    r := Strip(cc, token);
    if '+' in r {
      r := CleanPlusesLoop(r);
    } else {
      NoPluses(r);
    }
    if '#' in r {
      if |r| > 2 || r[|r| - 1] != '#' || r[0] !in NOTES {
        r := Remove(r, '#');
      }
    }
  }

  lemma NoPluses(s: string)
    requires '+' !in s
    ensures CleanPluses(s) == s && TrailingPluses(s) == 0
  {
  }

  lemma StripSpaceFree(cc: CharClass, s: string)
    requires SpaceFree(cc, s)
    ensures Strip(cc, s) == s
  {
  }

  /** Tokens without plus signs, hashes and white space are fixpoints. */
  lemma CleanFixpoint(cc: CharClass, s: string)
    requires SpaceFree(cc, s) && '+' !in s && '#' !in s
    ensures CleanToken(cc, s) == s
  {
  }

  /** Cleaned tokens have plus signs only at the end, and a hash only in a two-character note. */
  predicate CleanShape(s: string) {
    && '+' !in s[..|s| - TrailingPluses(s)]
    && ('#' in s ==> |s| == 2 && s[1] == '#' && s[0] in NOTES)
  }

  lemma {:induction false} TrailingPlusesOf(a: string, n: nat)
    requires a == "" || a[|a| - 1] != '+'
    ensures TrailingPluses(a + Pluses(n)) == n
  {
    var s := a + Pluses(n);
    if n > 0 {
      assert s[|s| - 1] == '+' && s[..|s| - 1] == a + Pluses(n - 1);
      TrailingPlusesOf(a, n - 1);
    } else {
      assert s == a;
    }
  }

  /** Text without plus signs, then plus signs. */
  lemma ShapeOf(a: string, n: nat)
    requires '+' !in a
    ensures TrailingPluses(a + Pluses(n)) == n && (a + Pluses(n))[..|a|] == a
  {
    if a != "" { assert a[|a| - 1] in a; }
    TrailingPlusesOf(a, n);
  }

  lemma HashesHaveShape(a: string, n: nat)
    requires '+' !in a
    ensures CleanShape(CleanHashes(a + Pluses(n)))
    ensures '#' !in a ==> CleanHashes(a + Pluses(n)) == a + Pluses(n)
  {
    var p := a + Pluses(n);
    ShapeOf(a, n);
    if CleanHashes(p) == p {
      if '#' in p { assert |p| != 1; }
    } else {
      RemoveConcat(a, Pluses(n), '#');
      ShapeOf(Remove(a, '#'), n);
    }
  }

  lemma CleanHasShape(cc: CharClass, token: string)
    ensures CleanShape(CleanToken(cc, token))
  {
    hide CleanHashes, CleanShape;
    var s := Strip(cc, token);
    var n := TrailingPluses(s);
    HashesHaveShape(Remove(s[..|s| - n], '+'), n);
  }

  /** Cleaning keeps every character but white space at the ends, plus signs and hashes, and their order. */
  lemma CleanKeeps(cc: CharClass, p: char -> bool, token: string)
    requires !p('+') && !p('#') && forall c :: cc.space(c) ==> !p(c)
    ensures Filter(p, CleanToken(cc, token)) == Filter(p, token)
  {
    StripLeftKeeps(cc, p, token);
    StripRightKeeps(cc, p, StripLeft(cc, token));
    PlusesKeep(p, Strip(cc, token));
    FilterRemove(p, CleanPluses(Strip(cc, token)), '#');
  }

  /** So it loses nothing alphanumeric. */
  lemma CleanKeepsAlnum(cc: CharClass, token: string)
    requires WfChars(cc)
    ensures AlnumOnly(cc, CleanToken(cc, token)) == AlnumOnly(cc, token)
  {
    assert '+' in Symbols() && '#' in Symbols();
    CleanKeeps(cc, cc.alnum, token);
  }

  lemma PlusesKeep(p: char -> bool, s: string)
    requires !p('+')
    ensures Filter(p, CleanPluses(s)) == Filter(p, s)
  {
    var n := TrailingPluses(s);
    var a := s[..|s| - n];
    TrailingArePluses(s);
    assert s == a + Pluses(n);
    FilterNone(p, Pluses(n));
    FilterConcat(p, a, Pluses(n));
    FilterRemove(p, a, '+');
    FilterConcat(p, Remove(a, '+'), Pluses(n));
  }

  lemma {:induction false} TrailingArePluses(s: string)
    ensures s[|s| - TrailingPluses(s)..] == Pluses(TrailingPluses(s))
  {
    if s != "" && s[|s| - 1] == '+' {
      var front := s[..|s| - 1];
      TrailingArePluses(front);
      assert s[|s| - TrailingPluses(s)..] == front[|front| - TrailingPluses(front)..] + "+";
    }
  }

  lemma {:induction false} FilterNone(p: char -> bool, s: string)
    requires forall c :: c in s ==> !p(c)
    ensures Filter(p, s) == ""
  {
    if s != "" {
      assert s[0] in s && forall c :: c in s[1..] ==> c in s;
      FilterNone(p, s[1..]);
    }
  }

  lemma {:induction false} StripLeftKeeps(cc: CharClass, p: char -> bool, s: string)
    requires forall c :: cc.space(c) ==> !p(c)
    ensures Filter(p, StripLeft(cc, s)) == Filter(p, s)
  {
    if s != "" && cc.space(s[0]) {
      StripLeftKeeps(cc, p, s[1..]);
    }
  }

  lemma {:induction false} StripRightKeeps(cc: CharClass, p: char -> bool, s: string)
    requires forall c :: cc.space(c) ==> !p(c)
    ensures Filter(p, StripRight(cc, s)) == Filter(p, s)
  {
    if s != "" && cc.space(s[|s| - 1]) {
      var front, last := s[..|s| - 1], s[|s| - 1];
      StripRightKeeps(cc, p, front);
      assert s == front + [last];
      FilterConcat(p, front, [last]);
    }
  }

  /** strip() takes away white space at both ends, and all of it. */
  lemma StripEnds(cc: CharClass, s: string) returns (left: string, right: string)
    ensures s == left + Strip(cc, s) + right && forall c :: c in left || c in right ==> cc.space(c)
    ensures Strip(cc, s) != "" ==> !cc.space(Strip(cc, s)[0]) && !cc.space(Strip(cc, s)[|Strip(cc, s)| - 1])
  {
    left := StripLeftEnd(cc, s);
    var t := StripLeft(cc, s);
    right := StripRightEnd(cc, t);
    assert Strip(cc, s) != "" ==> Strip(cc, s)[0] == t[0];
  }

  lemma {:induction false} StripLeftEnd(cc: CharClass, s: string) returns (left: string)
    ensures s == left + StripLeft(cc, s) && forall c :: c in left ==> cc.space(c)
    ensures StripLeft(cc, s) != "" ==> !cc.space(StripLeft(cc, s)[0])
  {
    if s != "" && cc.space(s[0]) {
      var rest := StripLeftEnd(cc, s[1..]);
      left := [s[0]] + rest;
    } else {
      left := "";
    }
  }

  lemma {:induction false} StripRightEnd(cc: CharClass, s: string) returns (right: string)
    ensures s == StripRight(cc, s) + right && forall c :: c in right ==> cc.space(c)
    ensures StripRight(cc, s) != "" ==> !cc.space(StripRight(cc, s)[|StripRight(cc, s)| - 1])
  {
    if s != "" && cc.space(s[|s| - 1]) {
      var front := s[..|s| - 1];
      var rest := StripRightEnd(cc, front);
      right := rest + [s[|s| - 1]];
      assert s == front + [s[|s| - 1]];
    } else {
      right := "";
    }
  }

  /** Cleaning only removes characters, apart from moving plus signs to the end. */
  lemma CleanChars(cc: CharClass, token: string, c: char)
    requires c in CleanToken(cc, token)
    ensures c in token
  {
    var s := Strip(cc, token);
    var n := TrailingPluses(s);
    assert c in CleanPluses(s);
    if c in Pluses(n) {
      assert n > 0 && s[|s| - 1] == '+';
    } else {
      assert c in s[..|s| - n];
    }
    StripChars(cc, token, c);
  }

  lemma StripChars(cc: CharClass, s: string, c: char)
    requires c in Strip(cc, s)
    ensures c in s
  {
    StripRightChars(cc, StripLeft(cc, s), c);
    StripLeftChars(cc, s, c);
  }

  lemma {:induction false} StripLeftChars(cc: CharClass, s: string, c: char)
    requires c in StripLeft(cc, s)
    ensures c in s
  {
    if s != "" && cc.space(s[0]) { StripLeftChars(cc, s[1..], c); }
  }

  lemma {:induction false} StripRightChars(cc: CharClass, s: string, c: char)
    requires c in StripRight(cc, s)
    ensures c in s
  {
    if s != "" && cc.space(s[|s| - 1]) { StripRightChars(cc, s[..|s| - 1], c); }
  }

  /** What is cleaned once stays as it is. */
  lemma CleanIdempotent(cc: CharClass, token: string)
    requires WfChars(cc) && SpaceFree(cc, token)
    ensures CleanToken(cc, CleanToken(cc, token)) == CleanToken(cc, token)
  {
    var r := CleanToken(cc, token);
    forall c | c in r ensures !cc.space(c) { CleanChars(cc, token, c); }
    StripSpaceFree(cc, r);
    CleanHasShape(cc, token);
    hide WfChars, CleanToken, Strip;
    ShapeFixed(r);
    assert CleanToken(cc, r) == CleanHashes(CleanPluses(r)) by { StripThenClean(cc, r); }
  }

  lemma StripThenClean(cc: CharClass, s: string)
    requires Strip(cc, s) == s
    ensures CleanToken(cc, s) == CleanHashes(CleanPluses(s))
  {
  }

  lemma ShapeFixed(r: string)
    requires CleanShape(r)
    ensures CleanPluses(r) == r && CleanHashes(r) == r
  {
    var n := TrailingPluses(r);
    TrailingArePluses(r);
    assert r == r[..|r| - n] + Pluses(n);
  }

  // --------------------------------------------------------------- a field's tokens

  /** What index_document stores for a field value; None and the empty token are skipped. */
  function IndexedTokens(l: Locale, value: Option<string>): set<string> {
    var normal := NormalizeValue(l, value);
    if normal.None? then {}
    else set t | t in TokenizeContent(l.cc, normal.value) && CleanToken(l.cc, t) != "" :: CleanToken(l.cc, t)
  }

  /** The assertions in TokenFieldIndex.save hold: no token is blank or contains the key separator. */
  lemma SaveAssertionsHold(l: Locale, value: Option<string>, token: string)
    requires WfLocale(l) && token in IndexedTokens(l, value)
    ensures Strip(l.cc, token) != "" && BAR !in token
  {
    var normal := NormalizeValue(l, value).value;
    var t :| t in TokenizeContent(l.cc, normal) && token == CleanToken(l.cc, t);
    NormalizedWords(l, value.value);
    forall c | c in token ensures !l.cc.space(c) && c != BAR {
      CleanChars(l.cc, t, c);
      TokenChars(l.cc, normal, t, c);
      if c in normal {
        NormalizedChars(l, value.value, c);
      } else {
        assert c in Symbols();
      }
    }
    StripSpaceFree(l.cc, token);
  }

  /** Indexed tokens are made of characters of the lower-cased value and acronym symbols. */
  lemma IndexedChars(l: Locale, value: string, token: string, c: char)
    requires token in IndexedTokens(l, Some(value)) && c in token
    ensures c in Lower(l, value) || c in {'.', '-'}
  {
    var normal := NormalizeValue(l, Some(value)).value;
    var t :| t in TokenizeContent(l.cc, normal) && token == CleanToken(l.cc, t);
    hide TokenizeContent, CleanToken, NormalizeValue;
    CleanChars(l.cc, t, c);
    TokenChars(l.cc, normal, t, c);
    if c in normal { NormalChars(l, value, c); }
  }

  lemma NormalChars(l: Locale, value: string, c: char)
    requires c in NormalizeValue(l, Some(value)).value
    ensures c == SPACE || c in Lower(l, value)
  {
    var words := Words(l.cc, Lower(l, value));
    JoinChars(words, SPACE, c);
  }

  lemma NormalizedChars(l: Locale, value: string, c: char)
    requires WfLocale(l) && c in NormalizeValue(l, Some(value)).value
    ensures c == SPACE || !l.cc.space(c)
  {
    JoinChars(Words(l.cc, Lower(l, value)), SPACE, c);
  }

  lemma {:induction false} JoinChars(parts: seq<string>, sep: char, c: char)
    requires c in Join(parts, sep)
    ensures c == sep || exists p :: p in parts && c in p
  {
    if |parts| == 1 {
      assert parts[0] in parts;
    } else if parts != [] {
      if c in parts[0] {
        assert parts[0] in parts;
      } else if c != sep {
        JoinChars(parts[1..], sep, c);
        var p :| p in parts[1..] && c in p;
        assert p in parts;
      }
    }
  }
}
