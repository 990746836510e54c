/**
 Lexicographic order on sequences of code points, which is how Python and the Datastore
 compare strings, and the range scans that are built on it.
 */
module Lex {

  predicate Less(a: seq<int>, b: seq<int>) {
    if b == [] then false
    else if a == [] then true
    else a[0] < b[0] || (a[0] == b[0] && Less(a[1..], b[1..]))
  }

  predicate AtMost(a: seq<int>, b: seq<int>) {
    a == b || Less(a, b)
  }

  lemma {:induction false} LessIrreflexive(a: seq<int>)
    ensures !Less(a, a)
  {
    if a != [] {
      LessIrreflexive(a[1..]);
    }
  }

  lemma {:induction false} LessTransitive(a: seq<int>, b: seq<int>, c: seq<int>)
    requires Less(a, b) && Less(b, c)
    ensures Less(a, c)
  {
    if a != [] && a[0] == b[0] == c[0] {
      LessTransitive(a[1..], b[1..], c[1..]);
    }
  }

  lemma {:induction false} LessTotal(a: seq<int>, b: seq<int>)
    ensures Less(a, b) || a == b || Less(b, a)
  {
    if a != [] && b != [] && a[0] == b[0] {
      LessTotal(a[1..], b[1..]);
      assert a == [a[0]] + a[1..] && b == [b[0]] + b[1..];
    }
  }

  lemma LessAsymmetric(a: seq<int>, b: seq<int>)
    requires Less(a, b)
    ensures !Less(b, a)
  {
  }

  /** A common prefix does not influence the order. */
  lemma {:induction false} LessCommonPrefix(p: seq<int>, a: seq<int>, b: seq<int>)
    ensures Less(p + a, p + b) == Less(a, b)
  {
    if p == [] {
      assert p + a == a && p + b == b;
    } else {
      assert (p + a)[1..] == p[1..] + a && (p + b)[1..] == p[1..] + b;
      LessCommonPrefix(p[1..], a, b);
    }
  }

  /**
   The scan `start <= s < start + [top]` returns exactly the extensions of `start` whose next
   code point is below `top`.
   */
  lemma {:induction false} ScanIsPrefix(start: seq<int>, top: int, s: seq<int>)
    ensures AtMost(start, s) && Less(s, start + [top])
            <==> start <= s && (|start| < |s| ==> s[|start|] < top)
  {
    if start == [] {
      assert start + [top] == [top];
      if s != [] { assert !Less(s[1..], [top][1..]); }
    } else if s == [] {
    } else {
      var end := start + [top];
      assert end[1..] == start[1..] + [top];
      ScanIsPrefix(start[1..], top, s[1..]);
      if s[0] == start[0] {
        assert s == [s[0]] + s[1..] && start == [start[0]] + start[1..];
        assert start <= s <==> start[1..] <= s[1..];
      }
    }
  }
}
