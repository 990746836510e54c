/** Python's split, join and replace for single-character arguments. */
module Strings {

  /** s.split(c) */
  function Split<T(==)>(s: seq<T>, c: T): (r: seq<seq<T>>)
    ensures |r| >= 1
    ensures forall w :: w in r ==> c !in w
  {
    if s == [] then [[]]
    else
      var rest := Split(s[1..], c);
      if s[0] == c then [[]] + rest
      else
        assert forall w :: w in rest[1..] ==> w in rest;
        [[s[0]] + rest[0]] + rest[1..]
  }

  /** c.join(parts) */
  function Join<T>(parts: seq<seq<T>>, c: T): seq<T> {
    if parts == [] then []
    else if |parts| == 1 then parts[0]
    else parts[0] + [c] + Join(parts[1..], c)
  }

  lemma {:induction false} SplitFirst<T>(a: seq<T>, c: T, rest: seq<T>)
    requires c !in a
    ensures Split(a + [c] + rest, c) == [a] + Split(rest, c)
  {
    if a == [] {
      assert a + [c] + rest == [c] + rest;
    } else {
      assert (a + [c] + rest)[1..] == a[1..] + [c] + rest;
      SplitFirst(a[1..], c, rest);
      assert a == [a[0]] + a[1..];
    }
  }

  /** Text without the separator is a single part. */
  lemma {:induction false} SplitWhole<T>(a: seq<T>, c: T)
    requires c !in a
    ensures Split(a, c) == [a]
  {
    if a != [] {
      SplitWhole(a[1..], c);
      assert a == [a[0]] + a[1..];
    }
  }

  /** Parts without the separator are recovered from their join. */
  lemma {:induction false} SplitJoin<T>(parts: seq<seq<T>>, c: T)
    requires parts != [] && forall p :: p in parts ==> c !in p
    ensures Split(Join(parts, c), c) == parts
  {
    if |parts| == 1 {
      SplitWhole(parts[0], c);
    } else {
      SplitJoin(parts[1..], c);
      SplitFirst(parts[0], c, Join(parts[1..], c));
    }
  }

  /** s.replace(c, "") */
  function Remove<T(==,!new)>(s: seq<T>, c: T): (r: seq<T>)
    ensures forall x :: x in r <==> x in s && x != c
    ensures c !in s ==> r == s
  {
    if s == [] then [] else (if s[0] == c then [] else [s[0]]) + Remove(s[1..], c)
  }

  lemma {:induction false} RemoveConcat<T(!new)>(a: seq<T>, b: seq<T>, c: T)
    ensures Remove(a + b, c) == Remove(a, c) + Remove(b, c)
  {
    if a == [] {
      assert a + b == b;
    } else {
      assert (a + b)[1..] == a[1..] + b;
      RemoveConcat(a[1..], b, c);
    }
  }

  lemma RemoveItself<T(!new)>(c: T)
    ensures Remove([c], c) == []
  {
    assert [c][1..] == [];
  }

  /** s.replace(c, d) */
  function Exchange<T(==,!new)>(s: seq<T>, c: T, d: T): (r: seq<T>)
    ensures |r| == |s|
    ensures forall x :: x in r ==> x == d || x in s
  {
    if s == [] then [] else [if s[0] == c then d else s[0]] + Exchange(s[1..], c, d)
  }

  /** The characters that satisfy p, in order. */
  function Filter<T(!new)>(p: T -> bool, s: seq<T>): (r: seq<T>)
    ensures forall x :: x in r <==> x in s && p(x)
  {
    if s == [] then [] else (if p(s[0]) then [s[0]] else []) + Filter(p, s[1..])
  }

  lemma {:induction false} FilterConcat<T(!new)>(p: T -> bool, a: seq<T>, b: seq<T>)
    ensures Filter(p, a + b) == Filter(p, a) + Filter(p, b)
  {
    if a == [] {
      assert a + b == b;
    } else {
      assert (a + b)[1..] == a[1..] + b;
      FilterConcat(p, a[1..], b);
    }
  }

  lemma {:induction false} FilterRemove<T(!new)>(p: T -> bool, s: seq<T>, c: T)
    requires !p(c)
    ensures Filter(p, Remove(s, c)) == Filter(p, s)
  {
    if s != [] {
      FilterRemove(p, s[1..], c);
      FilterConcat(p, if s[0] == c then [] else [s[0]], Remove(s[1..], c));
    }
  }
}
