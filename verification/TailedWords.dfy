/** The tokens of alphanumeric text with symbols behind it, such as "c++" and "c#". */
module TailedWords {
  import opened Strings
  import opened Tokens
  import opened Fields

  /** Alphanumeric text, followed by one and the same symbol, once or more. */
  predicate HasTail(l: Locale, core: string, tail: string, symbol: char) {
    && IsAlnum(l.cc, core) && tail != "" && (forall c :: c in tail ==> c == symbol)
    && symbol in Symbols() && symbol != '.' && symbol != '-' && symbol != BAR
  }

  lemma {:induction false} SeparatorsOnly(tail: string, symbol: char, x: string)
    requires (forall c :: c in tail ==> c == symbol) && x in Split(tail, symbol)
    ensures x == ""
  {
    if tail != "" {
      assert tail[0] in tail && forall c :: c in tail[1..] ==> c in tail;
      if x != "" { SeparatorsOnly(tail[1..], symbol, x); }
    }
  }

  lemma TailSplit(core: string, tail: string, symbol: char, x: string)
    requires symbol !in core && tail != "" && (forall c :: c in tail ==> c == symbol)
    requires x in Split(core + tail, symbol)
    ensures x == core || x == ""
  {
    assert tail[0] in tail;
    assert core + tail == core + [symbol] + tail[1..];
    SplitFirst(core, symbol, tail[1..]);
    if x in Split(tail[1..], symbol) {
      assert forall c :: c in tail[1..] ==> c in tail;
      SeparatorsOnly(tail[1..], symbol, x);
    }
  }

  lemma {:induction false} SymbolRemoved(tail: string, symbol: char)
    requires forall c :: c in tail ==> c == symbol
    ensures Remove(tail, symbol) == ""
  {
    if tail != "" {
      assert tail[0] in tail && forall c :: c in tail[1..] ==> c in tail;
      SymbolRemoved(tail[1..], symbol);
    }
  }

  lemma TailRemove(core: string, tail: string, symbol: char)
    requires symbol !in core && forall c :: c in tail ==> c == symbol
    ensures Remove(core + tail, symbol) == core
  {
    RemoveConcat(core, tail, symbol);
    SymbolRemoved(tail, symbol);
    assert core + [] == core;
  }

  lemma TailAlnum(cc: CharClass, core: string, tail: string)
    requires IsAlnum(cc, core) && forall c :: c in tail ==> !cc.alnum(c)
    ensures AlnumOnly(cc, core + tail) == core
  {
    FilterConcat(cc.alnum, core, tail);
    AllAlnum(cc, core);
    FilterNone(cc.alnum, tail);
    assert core + [] == core;
  }

  lemma TailPieces(l: Locale, core: string, tail: string, symbol: char, p: char, t: string)
    requires WfLocale(l) && HasTail(l, core, tail, symbol) && p in Symbols() && t != ""
    requires t in Split(core + tail, p) || t == Remove(core + tail, p)
    ensures t == core + tail || t == core
  {
    assert symbol !in core;
    if p == symbol {
      TailRemove(core, tail, symbol);
      if t in Split(core + tail, p) { TailSplit(core, tail, symbol, t); }
    } else {
      assert p !in core + tail;
      SplitWhole(core + tail, p);
    }
  }

  /** The tokens of one word are its pieces. */
  lemma TokensOfWord(cc: CharClass, word: string, t: string)
    requires SPACE !in word && BAR !in word && t in TokenizeWords(cc, word)
    ensures t != "" && t in WordPieces(cc, word)
  {
    SplitWhole(word, SPACE);
    hide WordPieces;
    var i := AllWordTokensFrom(cc, [word], t);
  }

  lemma PieceOfWord(cc: CharClass, word: string, t: string) returns (p: char)
    requires t in WordPieces(cc, word) && t != word && t != AlnumOnly(cc, word)
    ensures p in Symbols() && (t in Split(word, p) || t == Remove(word, p))
  {
    hide Symbols, Split, Remove, AlnumOnly;
    p :| p in Symbols() && (t in Split(word, p) || t == Remove(word, p));
  }

  lemma TailWordTokens(l: Locale, core: string, tail: string, symbol: char, t: string)
    requires WfLocale(l) && HasTail(l, core, tail, symbol) && t in TokenizeWords(l.cc, core + tail)
    ensures t == core + tail || t == core
  {
    var word := core + tail;
    assert BAR in Symbols();
    assert SPACE !in word && BAR !in word;
    TailAlnum(l.cc, core, tail);
    hide Symbols, WfLocale, AlnumOnly, IsAlnum, HasTail, TokenizeWords, WordPieces;
    TokensOfWord(l.cc, word, t);
    if t != word && t != core {
      var p := PieceOfWord(l.cc, word, t);
      TailPieces(l, core, tail, symbol, p, t);
    }
  }

  /** Such a word has no tokens but itself and the text in front. */
  lemma TailTokens(l: Locale, core: string, tail: string, symbol: char, t: string)
    requires WfLocale(l) && HasTail(l, core, tail, symbol) && t in TokenizeContent(l.cc, core + tail)
    ensures t == core + tail || t == core
  {
    var word := core + tail;
    assert '.' in Symbols() && '-' in Symbols();
    assert forall c :: c in word ==> c != '.' && c != '-';
    assert forall c :: c in core ==> c != '.' && c != '-';
    hide TokenizeContent, WfLocale, TokenizeWords, Acronyms, HasTail;
    forall x | x in TokenizeWords(l.cc, word) ensures (x == word || x == core) && Acronyms(l.cc, x) == {} {
      TailWordTokens(l, core, tail, symbol, x);
      AlnumHasNoAcronyms(l.cc, x);
    }
    NoAcronymTokens(l.cc, word, t);
  }

  lemma NoAcronymTokens(cc: CharClass, content: string, t: string)
    requires t in TokenizeContent(cc, content)
    requires forall x :: x in TokenizeWords(cc, content) ==> Acronyms(cc, x) == {}
    ensures t in TokenizeWords(cc, content)
  {
    hide TokenizeWords, Acronyms;
  }

  lemma NameIsClean(l: Locale, core: string, tail: string)
    requires WfLocale(l)
    requires HasTail(l, core, tail, '+') || (HasTail(l, core, tail, '#') && |core| == 1 == |tail| && core[0] in NOTES)
    ensures CleanToken(l.cc, core) == core && CleanToken(l.cc, core + tail) == core + tail
  {
    assert '+' in Symbols() && '#' in Symbols();
    assert forall c :: c in core + tail ==> c in core || c in tail;
    assert SpaceFree(l.cc, core) && SpaceFree(l.cc, core + tail);
    assert '+' !in core && '#' !in core;
    CleanFixpoint(l.cc, core);
    StripSpaceFree(l.cc, core + tail);
    assert forall i :: 0 <= i < |tail| ==> tail[i] in tail;
    hide Symbols, WfLocale, CleanPluses, CleanHashes, Strip, SpaceFree, Remove, TrailingPluses;
    if HasTail(l, core, tail, '+') {
      PlusTailIsClean(core, tail);
    } else {
      NoteIsClean(core, tail);
    }
  }

  lemma PlusTailIsClean(core: string, tail: string)
    requires '+' !in core && '#' !in core && forall i :: 0 <= i < |tail| ==> tail[i] == '+'
    ensures CleanHashes(CleanPluses(core + tail)) == core + tail
  {
    var n := |tail|;
    assert tail == Pluses(n);
    ShapeOf(core, n);
    assert '#' !in core + tail;
  }

  lemma NoteIsClean(core: string, tail: string)
    requires '+' !in core && |core| == 1 == |tail| && core[0] in NOTES && tail[0] == '#'
    ensures CleanHashes(CleanPluses(core + tail)) == core + tail
  {
    assert '+' !in core + tail;
    NoPluses(core + tail);
  }
}
