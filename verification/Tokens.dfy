/** The tokenizer of djangae/contrib/search/tokens.py and the constants it uses. */
module Tokens {
  import opened Strings

  const SPACE := ' '

  const BAR := '|'

  const PUNCTUATION: set<char> := {
    '!', '"', '%', '(', ')', '*', ',', '-', '|', '/', '[', ']', '^', '`', ':', '=', '>', '?', '@', '{',
    '}', '~', '$', '.'
  }

  const SPECIAL_SYMBOLS: set<char> := {'<', '+', '#', '\'', '.', '-'}

  /** PUNCTUATION | SPECIAL_SYMBOLS */
  function Symbols(): set<char> {
    PUNCTUATION + SPECIAL_SYMBOLS
  }

  /** Python's character classes, which the tokenizer takes as they are. */
  datatype CharClass = CharClass(alnum: char -> bool, alpha: char -> bool, digit: char -> bool, space: char -> bool)

  /** What is used of them: symbols and white space are not alphanumeric, letters and digits are. */
  ghost predicate WfChars(cc: CharClass) {
    && cc.space(SPACE)
    && (forall c :: cc.space(c) ==> !cc.alnum(c) && c !in Symbols())
    && (forall c :: c in Symbols() ==> !cc.alnum(c))
    && (forall c :: cc.alpha(c) || cc.digit(c) ==> cc.alnum(c))
  }

  /** s.isalnum() */
  predicate IsAlnum(cc: CharClass, s: string) {
    s != "" && forall c :: c in s ==> cc.alnum(c)
  }

  function AlnumOnly(cc: CharClass, s: string): string {
    Filter(cc.alnum, s)
  }

  /** Everything but single symbols. */
  predicate Keeps(cc: CharClass, t: string) {
    |t| > 1 || (|t| == 1 && cc.alnum(t[0]))
  }

  // ---------------------------------------------------------------- _tokenize_words

  function ToSet(s: seq<string>): set<string> {
    set t | t in s
  }

  lemma ToSetConcat(a: seq<string>, b: seq<string>)
    ensures ToSet(a + b) == ToSet(a) + ToSet(b)
  {
  }

  /** A word split at each of the symbols. */
  function SplitAt(word: string, symbols: set<char>): set<string> {
    set p, t | p in symbols && t in Split(word, p) :: t
  }

  /** A word without each of the symbols. */
  function RemoveAt(word: string, symbols: set<char>): set<string> {
    set p | p in symbols :: Remove(word, p)
  }

  function PiecesAt(word: string, symbols: set<char>): set<string> {
    SplitAt(word, symbols) + RemoveAt(word, symbols)
  }

  lemma PiecesAtNext(word: string, symbols: set<char>, p: char)
    ensures PiecesAt(word, symbols + {p}) == PiecesAt(word, symbols) + ToSet(Split(word, p)) + {Remove(word, p)}
  {
    hide Split, Remove;
    assert SplitAt(word, symbols + {p}) == SplitAt(word, symbols) + ToSet(Split(word, p));
    assert RemoveAt(word, symbols + {p}) == RemoveAt(word, symbols) + {Remove(word, p)};
  }

  /** The tokens of one word: itself, and split or stripped at each symbol unless it is alphanumeric. */
  function WordPieces(cc: CharClass, word: string): set<string> {
    if IsAlnum(cc, word) then {word}
    else {word} + PiecesAt(word, Symbols()) + {AlnumOnly(cc, word)}
  }

  /** A word without the key separator contributes its pieces, if anything is left of it. */
  function WordTokens(cc: CharClass, word: string): set<string> {
    if Remove(word, BAR) == "" then {} else WordPieces(cc, Remove(word, BAR))
  }

  function AllWordTokens(cc: CharClass, words: seq<string>): set<string> {
    if words == [] then {}
    else AllWordTokens(cc, words[..|words| - 1]) + WordTokens(cc, words[|words| - 1])
  }

  lemma {:induction false} AllWordTokensOf(cc: CharClass, words: seq<string>, i: nat)
    requires i < |words|
    ensures WordTokens(cc, words[i]) <= AllWordTokens(cc, words)
  {
    hide WordTokens;
    if i < |words| - 1 {
      AllWordTokensOf(cc, words[..|words| - 1], i);
    }
  }

  lemma {:induction false} AllWordTokensFrom(cc: CharClass, words: seq<string>, t: string) returns (i: nat)
    requires t in AllWordTokens(cc, words)
    ensures i < |words| && t in WordTokens(cc, words[i])
  {
    hide WordTokens;
    i := |words| - 1;
    if t !in WordTokens(cc, words[i]) {
      i := AllWordTokensFrom(cc, words[..i], t);
    }
  }

  function TokenizeWords(cc: CharClass, content: string): set<string> {
    set t | t in AllWordTokens(cc, Split(content, SPACE)) && Keeps(cc, t)
  }

  lemma FirstPiece(word: string)
    ensures ToSet([word]) == {word} && PiecesAt(word, {}) == {}
  {
  }

  /** The inner loops over the symbols, for one word; Python's set order is arbitrary. */
  method CollectPieces(cc: CharClass, word: string) returns (tokens: seq<string>)
    ensures ToSet(tokens) == WordPieces(cc, word)
  {
    tokens := [word];
    FirstPiece(word);
    hide Symbols, PiecesAt, Split, Remove, ToSet, IsAlnum, AlnumOnly;
    if !IsAlnum(cc, word) {
      var rest := Symbols();
      assert Symbols() - rest == {};
      while rest != {}
        invariant rest <= Symbols()
        invariant ToSet(tokens) == {word} + PiecesAt(word, Symbols() - rest)
        decreases rest
      {
        var punct :| punct in rest;
        PiecesAtNext(word, Symbols() - rest, punct);
        ToSetConcat(tokens, Split(word, punct));
        ToSetConcat(tokens + Split(word, punct), [Remove(word, punct)]);
        FirstPiece(Remove(word, punct));
        assert Symbols() - (rest - {punct}) == (Symbols() - rest) + {punct};
        tokens := tokens + Split(word, punct) + [Remove(word, punct)];
        rest := rest - {punct};
      }
      assert Symbols() - rest == Symbols();
      ToSetConcat(tokens, [AlnumOnly(cc, word)]);
      FirstPiece(AlnumOnly(cc, word));
      tokens := tokens + [AlnumOnly(cc, word)];
    }
  }

  /** The loop over the words, and the final filter. */
  method TokenizeWordsLoop(cc: CharClass, content: string) returns (result: set<string>)
    ensures result == TokenizeWords(cc, content)
  {
    hide Symbols, WordPieces;
    var words := Split(content, SPACE);
    var tokens: seq<string> := [];
    for i := 0 to |words|
      invariant ToSet(tokens) == AllWordTokens(cc, words[..i])
    {
      assert words[..i + 1][..i] == words[..i];
      var word := Remove(words[i], BAR);
      if word != "" {
        var pieces := CollectPieces(cc, word);
        ToSetConcat(tokens, pieces);
        tokens := tokens + pieces;
      }
    }
    assert words[..|words|] == words;
    result := set t | t in tokens && Keeps(cc, t);
    assert forall t :: t in tokens <==> t in ToSet(tokens);
  }

  // ----------------------------------------------------------------------- acronyms

  /** The other acronym symbol. */
  function OtherSymbol(c: char): char {
    if c == '.' then '-' else '.'
  }

  function EverySecond(s: string): string {
    if s == "" then "" else if |s| == 1 then s else [s[0]] + EverySecond(s[2..])
  }

  /** With the symbol exchanged, and without it. */
  function Variants(token: string, c: char): set<string> {
    {Exchange(token, c, OtherSymbol(c)), Remove(token, c)}
  }

  /** Letters alternating with one and the same acronym symbol. */
  predicate IsWordAcronym(cc: CharClass, token: string) {
    |token| >= 2
    && var letters, symbols := EverySecond(token), EverySecond(token[1..]);
       && (forall s :: s in symbols ==> s == token[1]) && token[1] in {'.', '-'}
       && forall x :: x in letters ==> cc.alpha(x)
  }

  function WordAcronyms(cc: CharClass, token: string): set<string> {
    if IsWordAcronym(cc, token) then Variants(token, token[1]) else {}
  }

  /** Digits around one of the two symbols. */
  function DateAcronyms(cc: CharClass, token: string): set<string> {
    if ('.' in token) == ('-' in token) then {} else
    var c := if '.' in token then '.' else '-';
    if forall x :: x in Remove(token, c) ==> cc.digit(x) then Variants(token, c) else {}
  }

  function Acronyms(cc: CharClass, token: string): set<string> {
    if token == "" then {}
    else if cc.alpha(token[0]) then WordAcronyms(cc, token)
    else if cc.digit(token[0]) then DateAcronyms(cc, token)
    else {}
  }

  function TokenizeContent(cc: CharClass, content: string): set<string> {
    var tokens := TokenizeWords(cc, content);
    tokens + set t, a | t in tokens && a in Acronyms(cc, t) :: a
  }

  method TokenizeContentLoop(cc: CharClass, content: string) returns (result: set<string>)
    ensures result == TokenizeContent(cc, content)
  {
    var tokens := TokenizeWordsLoop(cc, content);
    result := tokens;
    var rest := tokens;
    while rest != {}
      invariant rest <= tokens
      invariant result == tokens + set t, a | t in tokens - rest && a in Acronyms(cc, t) :: a
      decreases rest
    {
      var token :| token in rest;
      result := result + Acronyms(cc, token);
      rest := rest - {token};
    }
  }

  // --------------------------------------------------------------------- properties

  /** Tokens of a word are tokens of any content the word is part of. */
  lemma TokenizeMonotone(cc: CharClass, word: string, content: string)
    requires word in Split(content, SPACE)
    ensures TokenizeContent(cc, word) <= TokenizeContent(cc, content)
  {
    hide WordTokens;
    SplitWhole(word, SPACE);
    assert [word][..0] == [] && AllWordTokens(cc, [word]) == WordTokens(cc, word);
    var i :| 0 <= i < |Split(content, SPACE)| && Split(content, SPACE)[i] == word;
    AllWordTokensOf(cc, Split(content, SPACE), i);
    assert TokenizeWords(cc, word) <= TokenizeWords(cc, content);
  }

  /** The symbols are the punctuation characters of ASCII but for four of them. */
  lemma SymbolsAreAscii(c: char)
    ensures c in Symbols()
            <==> ('!' <= c <= '/' || ':' <= c <= '@' || '[' <= c <= '`' || '{' <= c <= '~')
                 && c !in {'&', ';', '\\', '_'}
  {
  }

  /** The parts of a word at each symbol are tokens of the content, and so is the word without the symbol. */
  lemma PartsAreTokens(cc: CharClass, content: string, i: nat, p: char, part: string)
    requires WfChars(cc) && i < |Split(content, SPACE)| && p in Symbols() && Keeps(cc, part)
    requires var word := Remove(Split(content, SPACE)[i], BAR); part in Split(word, p) || part == Remove(word, p)
    ensures part in TokenizeContent(cc, content)
  {
    var word := Remove(Split(content, SPACE)[i], BAR);
    AllWordTokensOf(cc, Split(content, SPACE), i);
    hide Symbols, AllWordTokens;
    if IsAlnum(cc, word) {
      SplitWhole(word, p);
    } else if word != "" {
      assert part in PiecesAt(word, Symbols());
    }
  }

  /** A word with something alphanumeric in it is one of its own tokens, and so is its alphanumeric part. */
  lemma WordIsToken(cc: CharClass, word: string)
    requires SPACE !in word && BAR !in word && AlnumOnly(cc, word) != ""
    ensures word in TokenizeContent(cc, word) && AlnumOnly(cc, word) in TokenizeContent(cc, word)
  {
    hide Symbols, PiecesAt;
    SplitWhole(word, SPACE);
    var a := AlnumOnly(cc, word);
    assert a[0] in a;
    assert a[0] in word && cc.alnum(a[0]);
    AllWordTokensOf(cc, [word], 0);
    if |word| == 1 {
      assert word[0] == a[0];
    }
    if IsAlnum(cc, word) {
      AllAlnum(cc, word);
    }
    assert a in WordTokens(cc, word);
  }

  lemma {:induction false} AllAlnum(cc: CharClass, s: string)
    requires forall c :: c in s ==> cc.alnum(c)
    ensures AlnumOnly(cc, s) == s
  {
    if s != "" {
      assert s[0] in s && forall c :: c in s[1..] ==> c in s;
      AllAlnum(cc, s[1..]);
    }
  }

  /** Tokens consist of characters of the content and the two acronym symbols, without separator or space. */
  lemma TokenChars(cc: CharClass, content: string, t: string, c: char)
    requires t in TokenizeContent(cc, content) && c in t
    ensures (c in content || c == '.' || c == '-') && c != BAR && c != SPACE
  {
    hide TokenizeWords, Acronyms;
    if t in TokenizeWords(cc, content) {
      WordTokenChars(cc, content, t, c);
    } else {
      var b :| b in TokenizeWords(cc, content) && t in Acronyms(cc, b);
      AcronymChars(cc, b, t, c);
      if c in b { WordTokenChars(cc, content, b, c); }
    }
  }

  lemma AcronymOf(cc: CharClass, b: string, t: string) returns (d: char)
    requires t in Acronyms(cc, b)
    ensures d in {'.', '-'} && t in Variants(b, d)
    ensures b != "" && (cc.alpha(b[0]) || cc.digit(b[0]))
  {
    d := if cc.alpha(b[0]) then b[1] else if '.' in b then '.' else '-';
  }

  lemma AcronymChars(cc: CharClass, b: string, t: string, c: char)
    requires t in Acronyms(cc, b) && c in t
    ensures c in b || c == '.' || c == '-'
  {
  }

  lemma WordTokenChars(cc: CharClass, content: string, t: string, c: char)
    requires t in TokenizeWords(cc, content) && c in t
    ensures c in content && c != BAR && c != SPACE
  {
    hide WordPieces, Symbols;
    var words := Split(content, SPACE);
    var i := AllWordTokensFrom(cc, words, t);
    assert words[i] in words;
    PieceChars(cc, Remove(words[i], BAR), t, c);
    SplitChars(content, SPACE, words[i], c);
  }

  lemma PieceChars(cc: CharClass, word: string, t: string, c: char)
    requires t in WordPieces(cc, word) && c in t
    ensures c in word
  {
    hide Symbols;
    if t != word && t != AlnumOnly(cc, word) {
      PieceAtChars(word, Symbols(), t, c);
    }
  }

  lemma PieceAtChars(word: string, symbols: set<char>, t: string, c: char)
    requires t in PiecesAt(word, symbols) && c in t
    ensures c in word
  {
    if p :| p in symbols && t in Split(word, p) {
      SplitChars(word, p, t, c);
    }
  }

  lemma {:induction false} SplitChars(s: string, d: char, w: string, c: char)
    requires w in Split(s, d) && c in w
    ensures c in s
  {
    if s != "" {
      var rest := Split(s[1..], d);
      if s[0] == d {
        assert w == [] || w in rest;
        SplitChars(s[1..], d, w, c);
      } else if w == [s[0]] + rest[0] {
        if c != s[0] { SplitChars(s[1..], d, rest[0], c); }
      } else {
        assert w in rest[1..];
        SplitChars(s[1..], d, w, c);
      }
    }
  }

  /** No token is empty. */
  lemma TokensNonEmpty(cc: CharClass, content: string, t: string)
    requires WfChars(cc) && t in TokenizeContent(cc, content)
    ensures t != ""
  {
    hide AllWordTokens, Acronyms;
    if t !in TokenizeWords(cc, content) {
      var b :| b in TokenizeWords(cc, content) && t in Acronyms(cc, b);
      var d := AcronymOf(cc, b, t);
      assert !cc.alnum(d) by { assert d in Symbols(); }
      assert b[0] in Remove(b, d);
    }
  }

  /** Nor is one a single symbol. */
  lemma TokensKeep(cc: CharClass, content: string, t: string)
    requires WfChars(cc) && t in TokenizeContent(cc, content) && |t| == 1
    ensures cc.alnum(t[0])
  {
    hide AllWordTokens, Acronyms;
    if t !in TokenizeWords(cc, content) {
      var b :| b in TokenizeWords(cc, content) && t in Acronyms(cc, b);
      var d := AcronymOf(cc, b, t);
      assert d in Symbols();
      if t == Remove(b, d) {
        assert b[0] in t;
      } else {
        assert |b| == 1 && t == Exchange(b, d, OtherSymbol(d));
        assert b[0] != d && b[1..] == "";
      }
    }
  }

  // ------------------------------------------------------------ what acronyms are there

  /** The letters with a symbol between each two. */
  function Spelled(letters: string, c: char): string {
    if |letters| <= 1 then letters else [letters[0], c] + Spelled(letters[1..], c)
  }

  lemma {:induction false} SpelledParts(letters: string, c: char)
    requires letters != "" && c !in letters
    ensures |Spelled(letters, c)| >= |letters| && Spelled(letters, c)[0] == letters[0]
    ensures EverySecond(Spelled(letters, c)) == letters && Remove(Spelled(letters, c), c) == letters
    ensures forall x :: x in EverySecond(Spelled(letters, c)[1..]) ==> x == c
  {
    if |letters| > 1 {
      var rest := Spelled(letters[1..], c);
      SpelledParts(letters[1..], c);
      SecondOfPair(letters[0], c, rest);
      assert letters == [letters[0]] + letters[1..];
    }
  }

  lemma EveryPair(x: char, c: char, rest: string)
    ensures EverySecond([x, c] + rest) == [x] + EverySecond(rest)
  {
    assert ([x, c] + rest)[2..] == rest;
  }

  lemma RemovePair(x: char, c: char, rest: string)
    requires x != c
    ensures Remove([x, c] + rest, c) == [x] + Remove(rest, c)
  {
    RemoveItself(c);
    assert [x, c] == [x] + [c] && [x][1..] == [] && Remove([x], c) == [x];
    hide Remove;
    RemoveConcat([x, c], rest, c);
    RemoveConcat([x], [c], c);
  }

  lemma SecondOfPair(x: char, c: char, rest: string)
    requires x != c
    ensures var s := [x, c] + rest;
            && EverySecond(s) == [x] + EverySecond(rest) && Remove(s, c) == [x] + Remove(rest, c)
            && (rest != "" ==> EverySecond(s[1..]) == [c] + EverySecond(rest[1..]))
  {
    hide EverySecond, Remove;
    EveryPair(x, c, rest);
    RemovePair(x, c, rest);
    if rest != "" {
      EveryPair(c, rest[0], rest[1..]);
      assert ([x, c] + rest)[1..] == [c, rest[0]] + rest[1..];
    }
  }

  lemma {:induction false} SpelledOther(letters: string, c: char, d: char)
    requires c !in letters
    ensures Exchange(Spelled(letters, c), c, d) == Spelled(letters, d)
  {
    if |letters| <= 1 {
      ExchangeAll(letters, c, d);
    } else {
      SpelledOther(letters[1..], c, d);
      var s := Spelled(letters, c);
      assert s[1..] == [c] + Spelled(letters[1..], c) && s[1..][1..] == Spelled(letters[1..], c);
      assert Exchange(s, c, d) == [letters[0]] + Exchange(s[1..], c, d);
    }
  }

  /** Letters spelled with dots or hyphens, like "i.b.m", have as acronyms the other spelling and the letters alone. */
  lemma SpelledAcronyms(cc: CharClass, letters: string, c: char)
    requires WfChars(cc) && |letters| >= 2 && (forall x :: x in letters ==> cc.alpha(x)) && c in {'.', '-'}
    ensures Acronyms(cc, Spelled(letters, c)) == {Spelled(letters, OtherSymbol(c)), letters}
  {
    assert '.' in Symbols() && '-' in Symbols();
    assert c !in letters;
    assert cc.alpha(letters[0]) && Spelled(letters, c)[1] == c;
    hide Symbols, WfChars;
    SpelledParts(letters, c);
    SpelledOther(letters, c, OtherSymbol(c));
    hide Spelled, EverySecond, Remove, Exchange;
    assert IsWordAcronym(cc, Spelled(letters, c));
  }

  /** So the spelling, the other one and the letters alone are tokens of any content such a word is part of. */
  lemma SpelledTokens(cc: CharClass, content: string, letters: string, c: char)
    requires WfChars(cc) && |letters| >= 2 && (forall x :: x in letters ==> cc.alpha(x)) && c in {'.', '-'}
    requires Spelled(letters, c) in Split(content, SPACE)
    ensures {Spelled(letters, c), Spelled(letters, OtherSymbol(c)), letters} <= TokenizeContent(cc, content)
  {
    var word := Spelled(letters, c);
    SpelledAcronyms(cc, letters, c);
    SpelledParts(letters, c);
    assert BAR !in word by {
      assert BAR in Symbols() && forall x :: x in letters ==> cc.alnum(x);
      if BAR in word { SpelledChars(letters, c, BAR); }
    }
    assert |word| > 1;
    hide Spelled, Acronyms, TokenizeWords, WfChars, Symbols;
    WholeWord(cc, content, word);
  }

  lemma WholeWord(cc: CharClass, content: string, word: string)
    requires word in Split(content, SPACE) && BAR !in word && |word| > 1
    ensures word in TokenizeWords(cc, content)
  {
    var i :| 0 <= i < |Split(content, SPACE)| && Split(content, SPACE)[i] == word;
    AllWordTokensOf(cc, Split(content, SPACE), i);
    hide Symbols, PiecesAt, AllWordTokens, IsAlnum;
    assert word in WordTokens(cc, word);
  }

  lemma {:induction false} SpelledChars(letters: string, c: char, x: char)
    requires x in Spelled(letters, c)
    ensures x in letters || x == c
  {
    if |letters| > 1 && x != letters[0] && x != c {
      SpelledChars(letters[1..], c, x);
    }
  }

  /** Digits divided by dots only, or by hyphens only, like "1.2", have the other division and the digits alone. */
  lemma DividedDigits(cc: CharClass, date: string, c: char)
    requires WfChars(cc) && date != "" && cc.digit(date[0]) && !cc.alpha(date[0]) && c in {'.', '-'} && c in date
    requires forall x :: x in date ==> x == c || cc.digit(x)
    ensures Acronyms(cc, date) == {Exchange(date, c, OtherSymbol(c)), Remove(date, c)}
  {
    assert '.' in Symbols() && '-' in Symbols();
    assert !cc.digit(OtherSymbol(c));
    hide Exchange, Symbols;
    assert OtherSymbol(c) !in date;
  }

  /** Exchanging replaces one symbol by the other and nothing else. */
  lemma {:induction false} ExchangeAt(s: string, c: char, d: char)
    ensures forall i :: 0 <= i < |s| ==> Exchange(s, c, d)[i] == if s[i] == c then d else s[i]
  {
    if s != "" { ExchangeAt(s[1..], c, d); }
  }

  // ------------------------------------------------------------ acronyms come in pairs

  lemma {:induction false} ExchangeSecond(s: string, c: char, d: char)
    ensures EverySecond(Exchange(s, c, d)) == Exchange(EverySecond(s), c, d)
    decreases |s|
  {
    if |s| >= 2 {
      ExchangeSecond(s[2..], c, d);
      assert Exchange(s, c, d)[2..] == Exchange(s[2..], c, d);
    }
  }

  lemma {:induction false} ExchangeAll(s: string, c: char, d: char)
    ensures c !in s ==> Exchange(s, c, d) == s
    ensures d !in s ==> Exchange(Exchange(s, c, d), d, c) == s
    ensures d !in s ==> Remove(Exchange(s, c, d), d) == Remove(s, c)
    ensures (forall x :: x in s ==> x == c) ==> forall x :: x in Exchange(s, c, d) ==> x == d
    ensures d in Exchange(s, c, d) <==> c in s || d in s
    ensures c != d ==> c !in Exchange(s, c, d)
  {
    if s != "" {
      ExchangeAll(s[1..], c, d);
      assert s == [s[0]] + s[1..];
    }
  }

  lemma {:induction false} SecondOf(s: string, x: char)
    requires s != ""
    ensures x in s <==> x in EverySecond(s) || x in EverySecond(s[1..])
  {
    if |s| >= 2 {
      SecondOf(s[1..], x);
      assert EverySecond(s) == [s[0]] + EverySecond(s[1..][1..]);
      assert s == [s[0]] + s[1..];
    }
  }

  /** The dotted and the hyphenated form of an acronym or date are acronyms of each other. */
  lemma AcronymsPair(cc: CharClass, token: string, a: string)
    requires WfChars(cc) && a in Acronyms(cc, token) && |a| == |token|
    ensures token in Acronyms(cc, a)
  {
    assert '.' in Symbols() && '-' in Symbols();
    assert !cc.alnum('.') && !cc.alnum('-');
    if cc.alpha(token[0]) {
      WordAcronymsPair(cc, token, a);
    } else {
      DateAcronymsPair(cc, token, a);
    }
  }

  lemma {:induction false} RemoveShorter(s: string, c: char)
    requires c in s
    ensures |Remove(s, c)| < |s|
  {
    if s[0] != c { RemoveShorter(s[1..], c); } else { RemoveNotLonger(s[1..], c); }
  }

  lemma {:induction false} RemoveNotLonger(s: string, c: char)
    ensures |Remove(s, c)| <= |s|
  {
    if s != "" { RemoveNotLonger(s[1..], c); }
  }

  /** Exchanging the symbol of an acronym gives an acronym with the other one. */
  lemma ExchangedWord(cc: CharClass, token: string)
    requires IsWordAcronym(cc, token) && !cc.alpha('.') && !cc.alpha('-')
    ensures var c := token[1]; var a := Exchange(token, c, OtherSymbol(c));
            IsWordAcronym(cc, a) && a[0] == token[0] && a[1] == OtherSymbol(c) && OtherSymbol(c) !in token && c in token
  {
    var letters, symbols, c := EverySecond(token), EverySecond(token[1..]), token[1];
    var d := OtherSymbol(c);
    assert letters[0] == token[0] && letters[0] in letters && symbols[0] == c;
    SecondOf(token, d);
    ExchangeSecond(token, c, d);
    ExchangeSecond(token[1..], c, d);
    assert Exchange(token, c, d)[1..] == Exchange(token[1..], c, d);
    hide EverySecond, Exchange;
    ExchangeAll(letters, c, d);
    ExchangeAll(symbols, c, d);
  }

  lemma WordAcronymsPair(cc: CharClass, token: string, a: string)
    requires a in WordAcronyms(cc, token) && |a| == |token| && !cc.alpha('.') && !cc.alpha('-')
    ensures a != "" && a[0] == token[0] && token in WordAcronyms(cc, a)
  {
    var c := token[1];
    ExchangedWord(cc, token);
    hide IsWordAcronym, EverySecond, Exchange, Remove;
    RemoveShorter(token, c);
    ExchangeAll(token, c, OtherSymbol(c));
  }

  lemma DateAcronymsPair(cc: CharClass, token: string, a: string)
    requires a in DateAcronyms(cc, token) && |a| == |token| && token != "" && token[0] != '.' && token[0] != '-'
    ensures a[0] == token[0] && token in DateAcronyms(cc, a)
  {
    var c := if '.' in token then '.' else '-';
    RemoveShorter(token, c);
    ExchangeAll(token, c, OtherSymbol(c));
  }

  // ------------------------------------------------------------- words of one token

  lemma OneWordTokens(cc: CharClass, text: string, joined: string)
    requires SPACE !in text && Remove(text, BAR) == joined && IsAlnum(cc, joined)
    ensures TokenizeWords(cc, text) <= {joined}
  {
    hide Remove, PiecesAt, Symbols;
    SplitWhole(text, SPACE);
    assert [text][..0] == [];
    assert AllWordTokens(cc, [text]) == AllWordTokens(cc, []) + WordTokens(cc, text);
  }

  lemma NoMoreTokens(cc: CharClass, text: string, joined: string)
    requires TokenizeWords(cc, text) <= {joined} && Acronyms(cc, joined) == {}
    ensures TokenizeContent(cc, text) <= {joined}
  {
    hide TokenizeWords, Acronyms;
  }

  lemma AlnumHasNoAcronyms(cc: CharClass, s: string)
    requires WfChars(cc) && forall c :: c in s ==> c != '.' && c != '-'
    ensures Acronyms(cc, s) == {}
  {
    if |s| >= 2 { assert s[1] in s; }
  }
}
