/** The composite sort key of djangae/contrib/pagination/decorators.py; text is a sequence of code points. */
module SortKey {
  import opened Common
  import opened Lex
  import opened Strings

  const NUL: int := 0

  const LAST: int := 0xFFFF

  /** One field of an instance as its ordering sees it. */
  datatype FieldValue = FieldValue(negated: bool, value: seq<int>)

  datatype KeyError = NotMirrorable

  /** The value of chr(0xffff - ord(x)), which only exists up to 0xffff. */
  function Mirror(value: seq<int>): seq<int> {
    seq(|value|, i requires 0 <= i < |value| => LAST - value[i])
  }

  predicate Mirrorable(value: seq<int>) {
    forall i :: 0 <= i < |value| ==> value[i] <= LAST
  }

  /** A mirrored character and the original add up to 65535, and just the characters beyond that have no mirror. */
  lemma MirrorRange(value: seq<int>, i: nat)
    requires i < |value|
    ensures Mirror(value)[i] + value[i] == 65535
    ensures Mirrorable(value) <==> forall c :: c in value ==> c <= 65535
  {
    assert forall i :: 0 <= i < |value| ==> value[i] in value;
  }

  function Encode(f: FieldValue): seq<int> {
    if f.negated then Mirror(f.value) else f.value
  }

  /** The parts in order, the primary key last. */
  function Parts(fields: seq<FieldValue>, pk: seq<int>): (r: seq<seq<int>>) {
    seq(|fields|, i requires 0 <= i < |fields| => Encode(fields[i])) + [pk]
  }

  function Key(fields: seq<FieldValue>, pk: seq<int>): seq<int> {
    Join(Parts(fields, pk), NUL)
  }

  /** The loop of `generator`; a code point beyond 0xffff in a descending field is chr's ValueError. */
  method Generator(fields: seq<FieldValue>, pk: seq<int>) returns (r: Result<seq<int>, KeyError>)
    ensures r == if forall i :: 0 <= i < |fields| && fields[i].negated ==> Mirrorable(fields[i].value)
                 then Ok(Key(fields, pk)) else Err(NotMirrorable)
  {
    var values: seq<seq<int>> := [];
    for n := 0 to |fields|
      invariant values == seq(n, i requires 0 <= i < n => Encode(fields[i]))
      invariant forall i :: 0 <= i < n && fields[i].negated ==> Mirrorable(fields[i].value)
    {
      var value := fields[n].value;
      if fields[n].negated {
        if exists i :: 0 <= i < |value| && value[i] > LAST {
          return Err(NotMirrorable);
        }
        value := Mirror(value);
      }
      values := values + [value];
    }
    values := values + [pk];
    assert values == Parts(fields, pk);
    r := Ok(Join(values, NUL));
  }

  // ---------------------------------------------------------------- the order

  /** Two instances sorted by the same ordering. */
  predicate SameOrdering(a: seq<FieldValue>, b: seq<FieldValue>) {
    |a| == |b| && forall i :: 0 <= i < |a| ==> a[i].negated == b[i].negated
  }

  /** Field by field, descending where negated; the primary key's text breaks ties. */
  predicate TupleLess(a: seq<FieldValue>, pkA: seq<int>, b: seq<FieldValue>, pkB: seq<int>)
    requires SameOrdering(a, b)
  {
    if a == [] then Less(pkA, pkB)
    else if a[0].value == b[0].value then TupleLess(a[1..], pkA, b[1..], pkB)
    else if a[0].negated then Less(b[0].value, a[0].value)
    else Less(a[0].value, b[0].value)
  }

  /** Code points, and where they are mirrored, none beyond 0xFFFF. */
  predicate InRange(f: FieldValue) {
    forall i :: 0 <= i < |f.value| ==> 0 <= f.value[i] && (f.negated ==> f.value[i] <= LAST)
  }

  predicate AllInRange(fields: seq<FieldValue>) {
    forall i :: 0 <= i < |fields| ==> InRange(fields[i])
  }

  /** No NUL, and nothing above 0xFFFE where it is mirrored. */
  predicate Plain(f: FieldValue) {
    forall i :: 0 <= i < |f.value| ==> 1 <= f.value[i] && (f.negated ==> f.value[i] < LAST)
  }

  predicate AllPlain(fields: seq<FieldValue>) {
    forall i :: 0 <= i < |fields| ==> Plain(fields[i])
  }

  /** The first difference is in a descending field and there one value is a prefix of the other. */
  predicate PrefixClash(a: seq<FieldValue>, b: seq<FieldValue>)
    requires SameOrdering(a, b)
  {
    if a == [] then false
    else if a[0].value == b[0].value then PrefixClash(a[1..], b[1..])
    else a[0].negated && (a[0].value <= b[0].value || b[0].value <= a[0].value)
  }

  /** v is u, a NUL, and perhaps more. */
  predicate Continues(u: seq<int>, v: seq<int>) {
    |u| < |v| && u == v[..|u|] && v[|u|] == NUL
  }

  /** At the first difference one encoded value is the other continued by NUL. */
  predicate NulClash(a: seq<FieldValue>, b: seq<FieldValue>)
    requires SameOrdering(a, b)
  {
    if a == [] then false
    else if a[0].value == b[0].value then NulClash(a[1..], b[1..])
    else Continues(Encode(a[0]), Encode(b[0])) || Continues(Encode(b[0]), Encode(a[0]))
  }

  predicate NulFree(s: seq<int>) {
    forall i :: 0 <= i < |s| ==> s[i] >= 1
  }

  predicate NonNegative(s: seq<int>) {
    forall i :: 0 <= i < |s| ==> s[i] >= 0
  }

  /** Texts terminated by NUL compare as the texts themselves, unless NUL continues one to the other. */
  lemma {:induction false} TerminatedOrder(u: seq<int>, x: seq<int>, v: seq<int>, y: seq<int>)
    requires NonNegative(u) && NonNegative(v) && u != v && !Continues(u, v) && !Continues(v, u)
    ensures Less(u + [NUL] + x, v + [NUL] + y) == Less(u, v)
    ensures u + [NUL] + x != v + [NUL] + y
  {
    var s, t := u + [NUL] + x, v + [NUL] + y;
    if u != [] && v != [] && u[0] == v[0] {
      assert s[1..] == u[1..] + [NUL] + x && t[1..] == v[1..] + [NUL] + y;
      assert u == [u[0]] + u[1..] && v == [v[0]] + v[1..];
      ContinuesTail(u, v);
      ContinuesTail(v, u);
      TerminatedOrder(u[1..], x, v[1..], y);
    } else {
      assert u != [] ==> s[0] == u[0];
      assert v != [] ==> t[0] == v[0];
      assert u == [] ==> s[0] == NUL && v[0] != NUL;
      assert v == [] ==> t[0] == NUL && u[0] != NUL;
    }
  }

  lemma ContinuesTail(u: seq<int>, v: seq<int>)
    requires u != [] && v != [] && u[0] == v[0]
    ensures Continues(u[1..], v[1..]) ==> Continues(u, v)
  {
    if Continues(u[1..], v[1..]) {
      assert u == [u[0]] + u[1..];
      assert v[..|u|] == [v[0]] + v[1..][..|u| - 1];
    }
  }

  /** Mirroring reverses the order of two texts unless one is a prefix of the other. */
  lemma {:induction false} MirrorOrder(u: seq<int>, v: seq<int>)
    requires u != v
    ensures Mirror(u) != Mirror(v)
    ensures Less(Mirror(u), Mirror(v)) == if u <= v || v <= u then Less(u, v) else Less(v, u)
  {
    if u != [] && v != [] {
      assert Mirror(u)[1..] == Mirror(u[1..]) && Mirror(v)[1..] == Mirror(v[1..]);
      assert Mirror(u)[0] == LAST - u[0] && Mirror(v)[0] == LAST - v[0];
      if u[0] == v[0] {
        assert u == [u[0]] + u[1..] && v == [v[0]] + v[1..];
        assert u <= v <==> u[1..] <= v[1..];
        assert v <= u <==> v[1..] <= u[1..];
        MirrorOrder(u[1..], v[1..]);
      }
    } else {
      assert |Mirror(u)| == |u| && |Mirror(v)| == |v|;
    }
  }

  lemma KeyUnfold(fields: seq<FieldValue>, pk: seq<int>)
    ensures fields == [] ==> Key(fields, pk) == pk
    ensures fields != [] ==> Key(fields, pk) == Encode(fields[0]) + [NUL] + Key(fields[1..], pk)
  {
    if fields != [] {
      assert Parts(fields, pk)[1..] == Parts(fields[1..], pk);
    }
  }

  lemma InRangeEncodes(f: FieldValue)
    requires InRange(f)
    ensures NonNegative(Encode(f))
  {
  }

  lemma PlainEncodes(f: FieldValue)
    requires Plain(f)
    ensures InRange(f) && NulFree(Encode(f))
  {
  }

  /** Values without NUL, and without 0xFFFF where they are mirrored, never clash on NUL. */
  lemma {:induction false} PlainNeverClashes(a: seq<FieldValue>, b: seq<FieldValue>)
    requires SameOrdering(a, b) && AllPlain(a) && AllPlain(b)
    ensures AllInRange(a) && AllInRange(b) && !NulClash(a, b)
  {
    if a != [] {
      PlainEncodes(a[0]);
      PlainEncodes(b[0]);
      PlainNeverClashes(a[1..], b[1..]);
      assert a == [a[0]] + a[1..] && b == [b[0]] + b[1..];
    }
  }

  /**
   The keys are ordered exactly like the field tuples, unless the first difference is in a descending field whose
   two values are prefixes of each other; then they are ordered the other way round. Only where NUL continues one
   encoded value to the other at the first difference does the order depend on what follows.
   */
  lemma {:induction false} KeyOrder(a: seq<FieldValue>, pkA: seq<int>, b: seq<FieldValue>, pkB: seq<int>)
    requires SameOrdering(a, b) && AllInRange(a) && AllInRange(b) && !NulClash(a, b)
    ensures Less(Key(a, pkA), Key(b, pkB)) == (TupleLess(a, pkA, b, pkB) != PrefixClash(a, b))
  {
    KeyUnfold(a, pkA);
    KeyUnfold(b, pkB);
    if a != [] {
      var ea, eb := Encode(a[0]), Encode(b[0]);
      InRangeEncodes(a[0]);
      InRangeEncodes(b[0]);
      var ra, rb := Key(a[1..], pkA), Key(b[1..], pkB);
      if a[0].value == b[0].value {
        LessCommonPrefix(ea + [NUL], ra, rb);
        KeyOrder(a[1..], pkA, b[1..], pkB);
      } else {
        FirstDifference(a[0], b[0]);
        TerminatedOrder(ea, ra, eb, rb);
      }
    }
  }

  lemma FirstDifference(f: FieldValue, g: FieldValue)
    requires f.negated == g.negated && f.value != g.value
    ensures Encode(f) != Encode(g)
    ensures var clash := f.negated && (f.value <= g.value || g.value <= f.value);
            var before := if f.negated then Less(g.value, f.value) else Less(f.value, g.value);
            Less(Encode(f), Encode(g)) == (before != clash)
  {
    if f.negated { MirrorOrder(f.value, g.value); }
    LessTotal(f.value, g.value);
    if Less(f.value, g.value) { LessAsymmetric(f.value, g.value); } else { LessAsymmetric(g.value, f.value); }
  }

  // ------------------------------------------------------------------- uniqueness

  /** A key ends with a NUL and the primary key. */
  lemma {:induction false} KeyEnds(fields: seq<FieldValue>, pk: seq<int>) returns (front: seq<int>)
    requires fields != []
    ensures Key(fields, pk) == front + [NUL] + pk
  {
    KeyUnfold(fields, pk);
    var first := Encode(fields[0]);
    if |fields| == 1 {
      KeyUnfold(fields[1..], pk);
      front := first;
    } else {
      var rest := KeyEnds(fields[1..], pk);
      front := first + [NUL] + rest;
      assert first + [NUL] + (rest + [NUL] + pk) == front + [NUL] + pk;
    }
  }

  /** The NUL before a text without NUL is the last one. */
  lemma LastNul(x: seq<int>, p: seq<int>)
    requires NulFree(p)
    ensures forall i :: |x| < i <= |x| + |p| ==> (x + [NUL] + p)[i] != NUL
  {
    forall i | |x| < i <= |x| + |p| ensures (x + [NUL] + p)[i] == p[i - |x| - 1] {
    }
  }

  lemma LastPart(x: seq<int>, p: seq<int>, y: seq<int>, q: seq<int>)
    requires NulFree(p) && NulFree(q) && x + [NUL] + p == y + [NUL] + q
    ensures p == q
  {
    var k, l := x + [NUL] + p, y + [NUL] + q;
    assert k[|x|] == NUL && l[|y|] == NUL && |k| == |l|;
    LastNul(x, p);
    LastNul(y, q);
    assert |x| == |y|;
    assert k[|x| + 1..] == p && l[|y| + 1..] == q;
  }

  /**
   Rows with different primary keys never share a key, whatever their values are; and if the values are plain,
   equal keys belong to equal values too.
   */
  lemma KeyInjective(a: seq<FieldValue>, pkA: seq<int>, b: seq<FieldValue>, pkB: seq<int>)
    requires SameOrdering(a, b) && Key(a, pkA) == Key(b, pkB)
    ensures NulFree(pkA) && NulFree(pkB) ==> pkA == pkB
    ensures AllPlain(a) && AllPlain(b) ==> a == b && pkA == pkB
  {
    if a == [] {
      KeyUnfold(a, pkA);
      KeyUnfold(b, pkB);
    } else {
      var x := KeyEnds(a, pkA);
      var y := KeyEnds(b, pkB);
      if NulFree(pkA) && NulFree(pkB) { LastPart(x, pkA, y, pkB); }
      if AllPlain(a) && AllPlain(b) { PlainInjective(a, pkA, b, pkB); }
    }
  }

  lemma {:induction false} PlainInjective(a: seq<FieldValue>, pkA: seq<int>, b: seq<FieldValue>, pkB: seq<int>)
    requires SameOrdering(a, b) && AllPlain(a) && AllPlain(b)
    requires Key(a, pkA) == Key(b, pkB)
    ensures a == b && pkA == pkB
  {
    KeyUnfold(a, pkA);
    KeyUnfold(b, pkB);
    if a != [] {
      PlainEncodes(a[0]);
      PlainEncodes(b[0]);
      var ra, rb := Key(a[1..], pkA), Key(b[1..], pkB);
      if a[0].value != b[0].value {
        if a[0].negated { MirrorOrder(a[0].value, b[0].value); }
        InRangeEncodes(a[0]);
        InRangeEncodes(b[0]);
        TerminatedOrder(Encode(a[0]), ra, Encode(b[0]), rb);
      }
      var n := |Encode(a[0])| + 1;
      assert Key(a, pkA)[n..] == ra && Key(b, pkB)[n..] == rb;
      PlainInjective(a[1..], pkA, b[1..], pkB);
      assert a == [a[0]] + a[1..] && b == [b[0]] + b[1..];
    }
  }

  /** The descending order is really lost on prefixes: "a" sorts before "ab" although it should come after. */
  lemma ClashExample()
    ensures var a, b := [FieldValue(true, [97])], [FieldValue(true, [97, 98])];
            && AllPlain(a) && AllPlain(b) && SameOrdering(a, b)
            && TupleLess(b, [49], a, [50]) && Less(Key(a, [50]), Key(b, [49]))
  {
  }

  // --------------------------------------------------------------- NUL in a value

  /** The text of a primary key. */
  predicate IsPk(p: seq<int>) {
    p != [] && NulFree(p)
  }

  function OneField(value: seq<int>): seq<FieldValue> {
    [FieldValue(false, value)]
  }

  lemma OneFieldKey(value: seq<int>, pk: seq<int>)
    ensures Key(OneField(value), pk) == value + [NUL] + pk
  {
    KeyUnfold(OneField(value), pk);
    KeyUnfold([], pk);
    assert OneField(value)[1..] == [];
  }

  /** The empty value and a single NUL: whatever the primary keys are, the keys are in the wrong order. */
  lemma NulBreaksOrder(p: seq<int>, q: seq<int>)
    requires IsPk(p) && IsPk(q)
    ensures TupleLess(OneField([]), p, OneField([NUL]), q)
    ensures Less(Key(OneField([NUL]), q), Key(OneField([]), p))
  {
    OneFieldKey([], p);
    OneFieldKey([NUL], q);
    var k, l := [] + [NUL] + p, [NUL] + [NUL] + q;
    assert k[0] == l[0] == NUL && k[1..] == p && l[1..] == [NUL] + q && l[1..][0] == NUL;
  }

  /** "a" with primary key 1 sorts behind "a", NUL, "!" with primary key 2. */
  lemma NulExample()
    ensures TupleLess(OneField([97]), [49], OneField([97, NUL, 33]), [50])
    ensures Less(Key(OneField([97, NUL, 33]), [50]), Key(OneField([97]), [49]))
  {
  }

  predicate Over(chars: iset<int>, value: seq<int>) {
    forall i :: 0 <= i < |value| ==> value[i] in chars
  }

  /** Rows ordered by one ascending field with values over these characters have their keys in the same order. */
  ghost predicate RightOver(chars: iset<int>) {
    forall u, v, p, q :: Over(chars, u) && Over(chars, v) && IsPk(p) && IsPk(q) && p != q
                         ==> Less(Key(OneField(u), p), Key(OneField(v), q)) == TupleLess(OneField(u), p, OneField(v), q)
  }

  /** That is so if and only if NUL is not among them. */
  lemma RightOverIffNoNul(chars: iset<int>)
    requires forall c :: c in chars ==> c >= 0
    ensures RightOver(chars) <==> NUL !in chars
  {
    if NUL in chars {
      var p, q := [49], [50];
      NulBreaksOrder(p, q);
      KeysDiffer(p, q);
      assert Over(chars, []) && Over(chars, [NUL]) && IsPk(p) && IsPk(q) && p != q;
      assert Less(Key(OneField([]), p), Key(OneField([NUL]), q)) != TupleLess(OneField([]), p, OneField([NUL]), q);
    } else {
      forall u, v, p, q | Over(chars, u) && Over(chars, v)
        ensures Less(Key(OneField(u), p), Key(OneField(v), q)) == TupleLess(OneField(u), p, OneField(v), q)
      {
        OneFieldOrder(u, p, v, q);
      }
    }
  }

  lemma KeysDiffer(p: seq<int>, q: seq<int>)
    requires Less(Key(OneField([NUL]), q), Key(OneField([]), p))
    ensures !Less(Key(OneField([]), p), Key(OneField([NUL]), q))
  {
    LessAsymmetric(Key(OneField([NUL]), q), Key(OneField([]), p));
  }

  lemma OneFieldOrder(u: seq<int>, p: seq<int>, v: seq<int>, q: seq<int>)
    requires NulFree(u) && NulFree(v)
    ensures Less(Key(OneField(u), p), Key(OneField(v), q)) == TupleLess(OneField(u), p, OneField(v), q)
  {
    PlainNeverClashes(OneField(u), OneField(v));
    KeyOrder(OneField(u), p, OneField(v), q);
    assert OneField(u)[1..] == [] && OneField(v)[1..] == [];
  }

  // ----------------------------------------------------------- sorted listing

  datatype Instance = Instance(fields: seq<FieldValue>, pk: seq<int>)

  function KeysOf(rows: seq<Instance>): seq<seq<int>> {
    seq(|rows|, i requires 0 <= i < |rows| => Key(rows[i].fields, rows[i].pk))
  }
}
