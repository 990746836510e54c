/** The token keys of djangae/contrib/search/models.py and the range filters of query.py that scan them. */
module SearchKeys {
  import opened Common
  import opened Lex
  import opened Strings

  const BAR := '|'

  /** chr(0x10FFFF), which closes every scanned range. */
  const TOP: int := 0x10FFFF

  /** A TokenFieldIndex row of one index. */
  datatype Entry = Entry(token: string, field: string, doc: int, rev: nat)

  // ------------------------------------------------------------- numbers as text

  function Digits(n: nat): (r: string)
    ensures |r| >= 1 && forall i :: 0 <= i < |r| ==> '0' <= r[i] <= '9'
  {
    var last := [('0' as int + n % 10) as char];
    if n < 10 then last else Digits(n / 10) + last
  }

  /** str(n) */
  function Decimal(n: int): string {
    if n < 0 then "-" + Digits(-n) else Digits(n)
  }

  function ParseDigits(s: string): Option<int> {
    if s == "" then Some(0)
    else
      var c, front := s[|s| - 1], ParseDigits(s[..|s| - 1]);
      if front.Some? && '0' <= c <= '9' then Some(front.value * 10 + (c as int - '0' as int)) else None
  }

  /** int(s), as far as canonical text goes; None is a ValueError. */
  function ParseInt(s: string): Option<int> {
    if s == "" || s == "-" then None
    else if s[0] == '-' then
      var n := ParseDigits(s[1..]);
      if n.Some? then Some(-n.value) else None
    else ParseDigits(s)
  }

  lemma {:induction false} ParseDigitsOf(n: nat)
    ensures ParseDigits(Digits(n)) == Some(n)
  {
    if n >= 10 {
      ParseDigitsOf(n / 10);
      assert Digits(n)[..|Digits(n)| - 1] == Digits(n / 10);
    } else {
      assert Digits(n)[..0] == "";
    }
  }

  /** int(str(n)) == n, and the text of a number is free of separators. */
  lemma ParseDecimal(n: int)
    ensures ParseInt(Decimal(n)) == Some(n)
    ensures BAR !in Decimal(n)
  {
    var d := Digits(if n < 0 then -n else n);
    ParseDigitsOf(if n < 0 then -n else n);
    assert forall i :: 0 <= i < |d| ==> d[i] != BAR;
    if n < 0 {
      assert Decimal(n)[1..] == d;
    }
  }

  // ----------------------------------------------------------------------- keys

  function GenerateKey(index: string, e: Entry): string {
    Join([index, e.token, e.field, Decimal(e.doc), Decimal(e.rev)], BAR)
  }

  /** document_id_from_pk; None is an exception. */
  function DocumentIdFromPk(pk: string): Option<int> {
    var parts := Split(pk, BAR);
    if |parts| < 2 then None else ParseInt(parts[|parts| - 2])
  }

  /** pk.split("|")[1]; None is an IndexError. */
  function TokenFromPk(pk: string): Option<string> {
    var parts := Split(pk, BAR);
    if |parts| < 2 then None else Some(parts[1])
  }

  predicate BarFree(index: string, e: Entry) {
    BAR !in index && BAR !in e.token && BAR !in e.field
  }

  lemma KeyParts(index: string, e: Entry)
    requires BarFree(index, e)
    ensures Split(GenerateKey(index, e), BAR) == [index, e.token, e.field, Decimal(e.doc), Decimal(e.rev)]
  {
    ParseDecimal(e.doc);
    ParseDecimal(e.rev);
    SplitJoin([index, e.token, e.field, Decimal(e.doc), Decimal(e.rev)], BAR);
  }

  /** The parts of a key, in order. */
  lemma KeyText(index: string, e: Entry)
    ensures GenerateKey(index, e)
            == index + "|" + e.token + "|" + e.field + "|" + Decimal(e.doc) + "|" + Decimal(e.rev)
  {
    KeyShape(index, e);
    hide Decimal, GenerateKey;
    var tail := [e.field, Decimal(e.doc), Decimal(e.rev)];
    assert tail[1..] == [Decimal(e.doc), Decimal(e.rev)] && tail[1..][1..] == [Decimal(e.rev)];
    assert Join(tail[1..][1..], BAR) == Decimal(e.rev);
    assert Join(tail[1..], BAR) == Decimal(e.doc) + "|" + Decimal(e.rev);
    assert KeyTail(e) == e.field + "|" + (Decimal(e.doc) + "|" + Decimal(e.rev));
  }

  /** Document id and token are recovered from any generated key. */
  lemma KeyRoundTrip(index: string, e: Entry)
    requires BarFree(index, e)
    ensures DocumentIdFromPk(GenerateKey(index, e)) == Some(e.doc)
    ensures TokenFromPk(GenerateKey(index, e)) == Some(e.token)
  {
    KeyParts(index, e);
    ParseDecimal(e.doc);
  }

  /** Different rows have different keys, so that get_or_create by key is insertion into a set. */
  lemma KeyInjective(i: string, e: Entry, j: string, f: Entry)
    requires BarFree(i, e) && BarFree(j, f) && GenerateKey(i, e) == GenerateKey(j, f)
    ensures i == j && e == f
  {
    KeyParts(i, e);
    KeyParts(j, f);
    ParseDecimal(e.doc);
    ParseDecimal(f.doc);
    ParseDecimal(e.rev);
    ParseDecimal(f.rev);
    var p, q := Split(GenerateKey(i, e), BAR), Split(GenerateKey(j, f), BAR);
    assert p[0] == q[0] && p[1] == q[1] && p[2] == q[2] && p[3] == q[3] && p[4] == q[4];
  }

  // ----------------------------------------------------------------- range scans

  /** The code points by which the Datastore orders keys. */
  function Codes(s: string): (r: seq<int>)
    ensures |r| == |s|
  {
    seq(|s|, i requires 0 <= i < |s| => s[i] as int)
  }

  /** pk__gte=start, pk__lt=start + chr(0x10FFFF) */
  predicate InScan(start: string, pk: string) {
    AtMost(Codes(start), Codes(pk)) && Less(Codes(pk), Codes(start) + [TOP])
  }

  function ExactStart(index: string, text: string): string {
    index + [BAR] + text + [BAR]
  }

  function PrefixStart(index: string, text: string): string {
    index + [BAR] + text
  }

  predicate TopFree(s: string) {
    forall i :: 0 <= i < |s| ==> s[i] as int != TOP
  }

  lemma CodesPrefix(a: string, b: string)
    ensures Codes(a) <= Codes(b) <==> a <= b
  {
    if Codes(a) <= Codes(b) {
      forall i | 0 <= i < |a| ensures a[i] == b[i] {
        assert Codes(a)[i] == Codes(b)[i];
      }
    }
  }

  /** A scan is a prefix test on the keys. */
  lemma ScanIsStartswith(start: string, pk: string)
    requires TopFree(pk)
    ensures InScan(start, pk) <==> start <= pk
  {
    ScanIsPrefix(Codes(start), TOP, Codes(pk));
    CodesPrefix(start, pk);
    if |start| < |pk| {
      assert pk[|start|] as int != TOP;
    }
  }

  lemma ConsPrefix(c: char, s: string, d: char, t: string)
    ensures [c] + s <= [d] + t <==> c == d && s <= t
  {
    if [c] + s <= [d] + t {
      assert ([c] + s)[0] == ([d] + t)[0];
      forall i | 0 <= i < |s| ensures i < |t| && s[i] == t[i] {
        assert ([c] + s)[i + 1] == ([d] + t)[i + 1];
      }
    }
  }

  /** One separated part in front of a prefix test. */
  lemma {:induction false} PartPrefix(a: string, x: string, b: string, y: string)
    requires BAR !in a && BAR !in b
    ensures a + [BAR] + x <= b + [BAR] + y <==> a == b && x <= y
  {
    var s, t := a + [BAR] + x, b + [BAR] + y;
    if a == [] {
      if b == [] {
        assert s == [BAR] + x && t == [BAR] + y;
        ConsPrefix(BAR, x, BAR, y);
      } else {
        assert s[0] == BAR && t[0] == b[0];
      }
    } else if b == [] {
      assert s[0] == a[0] && t[0] == BAR;
    } else {
      assert s == [a[0]] + (a[1..] + [BAR] + x) && t == [b[0]] + (b[1..] + [BAR] + y);
      assert a == [a[0]] + a[1..] && b == [b[0]] + b[1..];
      PartPrefix(a[1..], x, b[1..], y);
      ConsPrefix(a[0], a[1..] + [BAR] + x, b[0], b[1..] + [BAR] + y);
    }
  }

  lemma LastPartPrefix(text: string, token: string, rest: string)
    requires BAR !in text
    ensures text <= token + [BAR] + rest <==> text <= token
  {
    var s := token + [BAR] + rest;
    assert s[|token|] == BAR && s[..|token|] == token;
    assert forall i :: 0 <= i < |text| ==> text[i] != BAR;
  }

  function KeyTail(e: Entry): string {
    Join([e.field, Decimal(e.doc), Decimal(e.rev)], BAR)
  }

  lemma KeyShape(index: string, e: Entry)
    ensures GenerateKey(index, e) == index + [BAR] + (e.token + [BAR] + KeyTail(e))
  {
    var parts := [index, e.token, e.field, Decimal(e.doc), Decimal(e.rev)];
    assert parts[1..] == [e.token, e.field, Decimal(e.doc), Decimal(e.rev)];
    assert parts[1..][1..] == [e.field, Decimal(e.doc), Decimal(e.rev)];
    assert index + [BAR] + (e.token + [BAR] + KeyTail(e)) == index + [BAR] + Join(parts[1..], BAR);
  }

  /** The exact filter returns precisely the rows of the index with the searched token. */
  lemma ExactScan(index: string, text: string, i: string, e: Entry)
    requires BarFree(i, e) && BAR !in index && BAR !in text && TopFree(GenerateKey(i, e))
    ensures InScan(ExactStart(index, text), GenerateKey(i, e)) <==> i == index && e.token == text
  {
    ScanIsStartswith(ExactStart(index, text), GenerateKey(i, e));
    KeyShape(i, e);
    assert ExactStart(index, text) == index + [BAR] + (text + [BAR] + []);
    PartPrefix(index, text + [BAR] + [], i, e.token + [BAR] + KeyTail(e));
    PartPrefix(text, [], e.token, KeyTail(e));
  }

  /** The startswith filter returns precisely the rows of the index whose token starts with the text. */
  lemma PrefixScan(index: string, text: string, i: string, e: Entry)
    requires BarFree(i, e) && BAR !in index && BAR !in text && TopFree(GenerateKey(i, e))
    ensures InScan(PrefixStart(index, text), GenerateKey(i, e)) <==> i == index && text <= e.token
  {
    ScanIsStartswith(PrefixStart(index, text), GenerateKey(i, e));
    KeyShape(i, e);
    PartPrefix(index, text, i, e.token + [BAR] + KeyTail(e));
    LastPartPrefix(text, e.token, KeyTail(e));
  }
}
