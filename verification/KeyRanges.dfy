/** The key-range arithmetic of djangae/processing.py, over exact integers and rationals. */
module KeyRanges {
  import opened Common
  import opened Arith

  /** A half-open range of primary keys; `None` leaves that side unbounded. */
  datatype Range = Range(start: Option<int>, end: Option<int>)

  predicate Contains(r: Range, key: int) {
    && (r.start.Some? ==> r.start.value <= key)
    && (r.end.Some? ==> key < r.end.value)
  }

  // ---------------------------------------------------------------- datastore_key_ranges

  predicate Ascending(s: seq<int>) {
    forall i, j :: 0 <= i < j < |s| ==> s[i] <= s[j]
  }

  predicate StrictlyAscending(s: seq<int>) {
    forall i, j :: 0 <= i < j < |s| ==> s[i] < s[j]
  }

  predicate Distinct(s: seq<int>) {
    forall i, j :: 0 <= i < j < |s| ==> s[i] != s[j]
  }

  function Insert(x: int, s: seq<int>): (r: seq<int>)
    requires Ascending(s)
    ensures Ascending(r) && |r| == |s| + 1
    ensures forall k :: k in r <==> k == x || k in s
  {
    if s == [] || x <= s[0] then [x] + s
    else
      var t := Insert(x, s[1..]);
      assert forall k :: k in t ==> s[0] <= k;
      assert forall i :: 0 <= i < |t| ==> t[i] in t;
      [s[0]] + t
  }

  /** The in-place sort of the sampled keys. */
  function Sorted(s: seq<int>): (r: seq<int>)
    ensures Ascending(r) && |r| == |s|
    ensures forall k :: k in r <==> k in s
  {
    if s == [] then [] else Insert(s[0], Sorted(s[1..]))
  }

  /** Sorting keeps every sample as often as it occurs. */
  lemma {:induction false} SortedKeeps(s: seq<int>)
    ensures multiset(Sorted(s)) == multiset(s)
  {
    if s != [] {
      SortedKeeps(s[1..]);
      InsertAdds(s[0], Sorted(s[1..]));
      hide Insert, Ascending;
      assert s == [s[0]] + s[1..] && multiset([s[0]] + s[1..]) == multiset{s[0]} + multiset(s[1..]);
    }
  }

  lemma {:induction false} InsertAdds(x: int, s: seq<int>)
    requires Ascending(s)
    ensures multiset(Insert(x, s)) == multiset(s) + multiset{x}
  {
    if s != [] && x > s[0] {
      InsertAdds(x, s[1..]);
      assert s == [s[0]] + s[1..];
    }
  }

  lemma {:induction false} InsertStrict(x: int, s: seq<int>)
    requires StrictlyAscending(s) && x !in s
    ensures StrictlyAscending(Insert(x, s))
  {
    if s != [] && x > s[0] {
      InsertStrict(x, s[1..]);
      var t := Insert(x, s[1..]);
      assert forall k :: k in t ==> s[0] < k;
      assert forall i :: 0 <= i < |t| ==> t[i] in t;
    }
  }

  /** Sorting distinct keys leaves them strictly ascending. */
  lemma {:induction false} SortedStrict(s: seq<int>)
    requires Distinct(s)
    ensures StrictlyAscending(Sorted(s))
  {
    if s != [] {
      SortedStrict(s[1..]);
      InsertStrict(s[0], Sorted(s[1..]));
    }
  }

  /** Python's `round` of the fraction num/den: to the nearest integer, ties to even. */
  function RoundHalfEven(num: int, den: int): (r: int)
    requires den > 0
    ensures -den <= 2 * (r * den - num) <= den
    ensures 2 * (r * den - num) == den || 2 * (r * den - num) == -den ==> r % 2 == 0
  {
    var q, rem := num / den, num % den;
    DivMod(num, den);
    MulAdd(q, 1, den);
    if 2 * rem < den || (2 * rem == den && q % 2 == 0) then q else q + 1
  }

  /** a / b rounded up. */
  function CeilDiv(a: int, b: int): (r: int)
    requires b > 0
    ensures (r - 1) * b < a <= r * b
  {
    DivMod(a + b - 1, b);
    MulSub((a + b - 1) / b, 1, b);
    (a + b - 1) / b
  }

  /** The index of the i-th split key among n sorted samples. */
  function SplitIndex(n: nat, shards: int, i: int): int
    requires shards > 0
  {
    RoundHalfEven(i * n, shards)
  }

  /** The i-th index is the integer nearest to i * n / shards, the even one if two are. */
  lemma SplitNearest(n: nat, shards: int, i: int)
    requires shards > 0
    ensures var off := 2 * (SplitIndex(n, shards, i) * shards - i * n);
            -shards <= off <= shards && (off == shards || off == -shards ==> SplitIndex(n, shards, i) % 2 == 0)
  {
  }

  /** The distance of two consecutive split indices is within one of n/shards. */
  lemma SplitDistance(n: nat, shards: int, i: int)
    requires shards > 0
    ensures var d := SplitIndex(n, shards, i + 1) - SplitIndex(n, shards, i);
            n - shards <= d * shards <= n + shards
  {
    MulAdd(i, 1, n);
    MulSub(SplitIndex(n, shards, i + 1), SplitIndex(n, shards, i), shards);
  }

  lemma NearQuotient(n: nat, shards: int, d: int)
    requires shards > 0 && n - shards <= d * shards <= n + shards && n % shards != 0
    ensures n / shards <= d <= CeilDiv(n, shards)
  {
    var q, c := n / shards, CeilDiv(n, shards);
    DivMod(n, shards);
    MulSub(q, 1, shards);
    MulAdd(c, 1, shards);
    CancelLt(q - 1, d, shards);
    if d == c + 1 {
      MulAdd(q, 1, shards);
      CancelLt(c - 1, q + 1, shards);
      CancelLt(q, c, shards);
    }
    CancelLe(d, c + 1, shards);
  }

  /** Consecutive split indices are floor(n/shards) or ceil(n/shards) apart. */
  lemma SplitStride(n: nat, shards: int, i: int)
    requires shards > 0
    ensures n / shards <= SplitIndex(n, shards, i + 1) - SplitIndex(n, shards, i) <= CeilDiv(n, shards)
  {
    var q := n / shards;
    DivMod(n, shards);
    if n % shards == 0 {
      ExactSplit(n, shards, i, q);
      ExactSplit(n, shards, i + 1, q);
      MulAdd(i, 1, q);
      CancelLe(q, CeilDiv(n, shards), shards);
    } else {
      SplitDistance(n, shards, i);
      NearQuotient(n, shards, SplitIndex(n, shards, i + 1) - SplitIndex(n, shards, i));
    }
  }

  lemma ExactSplit(n: nat, shards: int, i: int, q: int)
    requires shards > 0 && n == q * shards
    ensures SplitIndex(n, shards, i) == i * q
  {
    var r := SplitIndex(n, shards, i);
    assert i * n == (i * q) * shards;
    MulSub(r, i * q, shards);
    CancelLt(r - i * q, 1, shards);
    CancelLt(-1, r - i * q, shards);
  }

  /** Indices start at 0, end at n, and never decrease; they increase when there are enough samples. */
  lemma SplitIndexMonotone(n: nat, shards: int, i: int, j: int)
    requires 0 < shards && 0 <= i <= j <= shards
    ensures SplitIndex(n, shards, 0) == 0 && SplitIndex(n, shards, shards) == n
    ensures 0 <= SplitIndex(n, shards, i) <= SplitIndex(n, shards, j) <= n
    ensures n >= shards && i < j ==> SplitIndex(n, shards, i) < SplitIndex(n, shards, j)
  {
    SplitEnds(n, shards);
    SplitChain(n, shards, 0, i);
    SplitChain(n, shards, i, j);
    SplitChain(n, shards, j, shards);
  }

  lemma SplitEnds(n: nat, shards: int)
    requires shards > 0
    ensures SplitIndex(n, shards, 0) == 0 && SplitIndex(n, shards, shards) == n
  {
    var z, r := SplitIndex(n, shards, 0), SplitIndex(n, shards, shards);
    CancelLt(z, 1, shards);
    CancelLt(-1, z, shards);
    MulSub(r, n, shards);
    CancelLt(r - n, 1, shards);
    CancelLt(-1, r - n, shards);
  }

  lemma {:induction false} SplitChain(n: nat, shards: int, i: int, j: int)
    requires 0 < shards && i <= j
    ensures SplitIndex(n, shards, i) <= SplitIndex(n, shards, j)
    ensures n >= shards && i < j ==> SplitIndex(n, shards, i) < SplitIndex(n, shards, j)
    decreases j - i
  {
    if i < j {
      SplitChain(n, shards, i, j - 1);
      SplitStride(n, shards, j - 1);
      DivMod(n, shards);
      if n >= shards {
        CancelLt(0, n / shards, shards);
      } else {
        CancelLt(-1, n / shards, shards);
      }
    }
  }

  /** The sample at which range i ends and range i + 1 starts. */
  function SplitKey(sorted: seq<int>, shards: int, i: int): int
    requires 1 < shards <= |sorted| && 0 <= i < shards - 1
  {
    SplitIndexMonotone(|sorted|, shards, i + 1, shards);
    sorted[SplitIndex(|sorted|, shards, i + 1)]
  }

  /** The sampled keys at which the key space is cut. */
  function SplitKeys(sorted: seq<int>, shards: int): (r: seq<int>)
    requires Ascending(sorted) && 1 < shards
    ensures |r| == if |sorted| >= shards then shards - 1 else |sorted|
  {
    if |sorted| >= shards then
      seq(shards - 1, i requires 0 <= i < shards - 1 => SplitKey(sorted, shards, i))
    else sorted
  }

  lemma SplitKeysAscending(sorted: seq<int>, shards: int)
    requires Ascending(sorted) && 1 < shards
    ensures Ascending(SplitKeys(sorted, shards))
  {
    var r := SplitKeys(sorted, shards);
    forall i, j | 0 <= i < j < |r| ensures r[i] <= r[j] {
      if |sorted| >= shards {
        SplitIndexMonotone(|sorted|, shards, i + 1, j + 1);
        SplitIndexMonotone(|sorted|, shards, j + 1, shards);
      }
    }
  }

  function RangesAt(split: seq<int>): (r: seq<Range>)
    requires |split| > 0
    ensures |r| == |split| + 1
  {
    [Range(None, Some(split[0]))]
    + seq(|split| - 1, i requires 0 <= i < |split| - 1 => Range(Some(split[i]), Some(split[i + 1])))
    + [Range(Some(split[|split| - 1]), None)]
  }

  function DatastoreKeyRanges(sampled: seq<int>, shards: int): seq<Range> {
    if shards > 1 && sampled != [] then
      RangesAt(SplitKeys(Sorted(sampled), shards))
    else [Range(None, None)]
  }

  /** Key lies in range i and in no other. */
  predicate OnlyIn(ranges: seq<Range>, i: int, key: int) {
    && 0 <= i < |ranges|
    && (forall j :: 0 <= j < |ranges| ==> (Contains(ranges[j], key) <==> j == i))
  }

  /** The ranges are at most `shards` many, and every key lies in exactly one of them. */
  lemma DatastorePartition(sampled: seq<int>, shards: int, key: int)
    ensures 1 <= |DatastoreKeyRanges(sampled, shards)| <= Max(1, shards)
    ensures exists i :: OnlyIn(DatastoreKeyRanges(sampled, shards), i, key)
  {
    if shards > 1 && sampled != [] {
      SplitKeysAscending(Sorted(sampled), shards);
      var i := RangeOf(SplitKeys(Sorted(sampled), shards), key);
    } else {
      assert OnlyIn(DatastoreKeyRanges(sampled, shards), 0, key);
    }
  }

  /** Finds the one range of an ascending split that holds the key. */
  lemma {:induction false} RangeOf(split: seq<int>, key: int) returns (i: nat)
    requires |split| > 0 && Ascending(split)
    ensures OnlyIn(RangesAt(split), i, key)
  {
    i := 0;
    while i < |split| && split[i] <= key
      invariant 0 <= i <= |split|
      invariant forall j :: 0 <= j < i ==> split[j] <= key
    {
      i := i + 1;
    }
    var r := RangesAt(split);
    forall j | 0 <= j <= |split| && Contains(r[j], key) ensures j == i {
      assert j < |split| ==> r[j].end == Some(split[j]);
      assert 0 < j ==> r[j].start == Some(split[j - 1]);
    }
    assert i < |split| ==> r[i].end == Some(split[i]);
    assert 0 < i ==> r[i].start == Some(split[i - 1]);
  }

  /** Range i runs from one split key to the next. */
  lemma RangeBounds(sampled: seq<int>, shards: int, i: int)
    requires 1 < shards <= |sampled| && 0 <= i < shards
    ensures |DatastoreKeyRanges(sampled, shards)| == shards
    ensures DatastoreKeyRanges(sampled, shards)[i]
            == Range(if i == 0 then None else Some(SplitKey(Sorted(sampled), shards, i - 1)),
                     if i == shards - 1 then None else Some(SplitKey(Sorted(sampled), shards, i)))
  {
    var sorted := Sorted(sampled);
    SplitKeysAt(sorted, shards);
    hide SplitKeys, SplitKey, RangesAt, Sorted, Ascending;
    RangesAtIndex(SplitKeys(sorted, shards), i);
  }

  lemma SplitKeysAt(sorted: seq<int>, shards: int)
    requires Ascending(sorted) && 1 < shards <= |sorted|
    ensures |SplitKeys(sorted, shards)| == shards - 1
    ensures forall j :: 0 <= j < shards - 1 ==> SplitKeys(sorted, shards)[j] == SplitKey(sorted, shards, j)
  {
    hide SplitKey, Ascending;
  }

  lemma RangesAtIndex(split: seq<int>, i: int)
    requires 0 <= i <= |split| && |split| > 0
    ensures RangesAt(split)[i] == Range(if i == 0 then None else Some(split[i - 1]),
                                        if i == |split| then None else Some(split[i]))
  {
  }

  /** With fewer samples than shards each sample is where two consecutive ranges meet, and nothing else is a bound. */
  lemma FewSamples(sampled: seq<int>, shards: int, i: int)
    requires 0 <= i < |sampled| < shards && shards > 1
    ensures var r := DatastoreKeyRanges(sampled, shards);
            && |r| == |sampled| + 1 && r[0].start == None && r[|sampled|].end == None
            && r[i].end == r[i + 1].start == Some(Sorted(sampled)[i])
  {
    hide Sorted;
    RangesAtIndex(Sorted(sampled), i);
    RangesAtIndex(Sorted(sampled), i + 1);
  }

  /**
   With at least `shards` distinct samples, range i holds exactly the samples between the i-th and
   the next split index, and these are floor(n/shards) or ceil(n/shards) many.
   */
  lemma DatastoreBalance(sampled: seq<int>, shards: int, i: int, j: int)
    requires 1 < shards <= |sampled| && Distinct(sampled)
    requires 0 <= i < shards && 0 <= j < |sampled|
    ensures |DatastoreKeyRanges(sampled, shards)| == shards
    ensures Contains(DatastoreKeyRanges(sampled, shards)[i], Sorted(sampled)[j])
            <==> SplitIndex(|sampled|, shards, i) <= j < SplitIndex(|sampled|, shards, i + 1)
    ensures |sampled| / shards <= SplitIndex(|sampled|, shards, i + 1) - SplitIndex(|sampled|, shards, i)
                               <= CeilDiv(|sampled|, shards)
  {
    SplitStride(|sampled|, shards, i);
    SortedStrict(sampled);
    SplitIndexMonotone(|sampled|, shards, i, i + 1);
    RangeBounds(sampled, shards, i);
    SampleInRange(Sorted(sampled), shards, i, j);
  }

  lemma SampleInRange(sorted: seq<int>, shards: int, i: int, j: int)
    requires 1 < shards <= |sorted| && StrictlyAscending(sorted)
    requires 0 <= i < shards && 0 <= j < |sorted|
    ensures i == 0 || SplitKey(sorted, shards, i - 1) <= sorted[j] <==> SplitIndex(|sorted|, shards, i) <= j
    ensures i == shards - 1 || sorted[j] < SplitKey(sorted, shards, i) <==> j < SplitIndex(|sorted|, shards, i + 1)
  {
    SplitEnds(|sorted|, shards);
    SplitIndexMonotone(|sorted|, shards, i, shards);
    SplitIndexMonotone(|sorted|, shards, i + 1, shards);
  }

  // ---------------------------------------------------------- sequential_int_key_ranges

  datatype RangeError = NoRows | ZeroShards

  /** i steps of the given size; the sum that the loop accumulates. */
  function Offset(size: nat, i: nat): (r: nat) {
    if i == 0 then 0 else Offset(size, i - 1) + size
  }

  lemma {:induction false} OffsetIsProduct(size: nat, i: nat)
    ensures Offset(size, i) == i * size
  {
    if i > 0 {
      OffsetIsProduct(size, i - 1);
      MulSub(i, 1, size);
    }
  }

  lemma {:induction false} OffsetMonotone(size: nat, i: nat, j: nat)
    requires i <= j
    ensures Offset(size, i) <= Offset(size, j)
    ensures i < j ==> Offset(size, i + 1) <= Offset(size, j)
  {
    if i + 1 < j {
      OffsetMonotone(size, i, j - 1);
    }
  }

  /** The width of one range. */
  function ShardSize(smallest: int, biggest: int, shards: int): (r: nat)
    requires smallest <= biggest && shards > 0
    ensures smallest < biggest ==> r > 0
  {
    var gap := biggest - smallest;
    if biggest < shards then 1
    else
      if gap == 0 then CancelLt(-1, CeilDiv(gap, shards), shards); CeilDiv(gap, shards)
      else CancelLt(0, CeilDiv(gap, shards), shards); CeilDiv(gap, shards)
  }

  /** How many ranges the loop produces: the fewest whose sizes add up to the gap, and at least n. */
  function RangeCountFrom(gap: nat, size: nat, n: nat): (r: nat)
    requires gap > 0 ==> size > 0
    requires n > 1 ==> Offset(size, n - 1) < gap
    ensures r >= n && gap <= Offset(size, r)
    ensures r > 1 && r >= n ==> r == n || Offset(size, r - 1) < gap
    decreases gap - Offset(size, n)
  {
    if gap <= Offset(size, n) then n else RangeCountFrom(gap, size, n + 1)
  }

  function RangeCount(gap: nat, size: nat): (n: nat)
    requires gap > 0 ==> size > 0
    ensures n >= 1 && gap <= Offset(size, n)
    ensures n > 1 ==> Offset(size, n - 1) < gap
  {
    RangeCountFrom(gap, size, 1)
  }

  /** The i-th range before the last one is overwritten. */
  function Step(smallest: int, size: nat, i: nat): Range {
    Range(Some(smallest + Offset(size, i)), Some(smallest + Offset(size, i + 1)))
  }

  /** The whole result in closed form. */
  function SequentialRanges(smallest: int, biggest: int, shards: int): (r: seq<Range>)
    requires smallest <= biggest && shards > 0
    ensures |r| == RangeCount(biggest - smallest, ShardSize(smallest, biggest, shards))
  {
    var size := ShardSize(smallest, biggest, shards);
    var n := RangeCount(biggest - smallest, size);
    seq(n - 1, i requires 0 <= i => Step(smallest, size, i)) + [Range(Some(biggest - size), Some(biggest + 1))]
  }

  /** The while loop of sequential_int_key_ranges. */
  method CollectRanges(first: int, last: int, size: nat) returns (ranges: seq<Range>)
    requires first <= last && (first < last ==> size > 0)
    ensures |ranges| == RangeCount(last - first, size)
    ensures forall i :: 0 <= i < |ranges| ==> ranges[i] == Step(first, size, i)
  {
    ghost var n := RangeCount(last - first, size);
    var currentMin := first;
    var currentMax := first + size;
    ranges := [Range(Some(currentMin), Some(currentMax))];
    assert Offset(size, 0) == 0 && Offset(size, 1) == size;
    while currentMax < last
      invariant 1 <= |ranges| <= n
      invariant currentMin == first + Offset(size, |ranges| - 1) && currentMax == first + Offset(size, |ranges|)
      invariant forall i :: 0 <= i < |ranges| ==> ranges[i] == Step(first, size, i)
      decreases last - currentMax
    {
      OffsetMonotone(size, |ranges|, n);
      assert Offset(size, |ranges| + 1) == currentMax - first + size;
      currentMin := currentMin + size;
      currentMax := currentMax + size;
      ranges := ranges + [Range(Some(currentMin), Some(currentMax))];
    }
    OffsetMonotone(size, |ranges|, if |ranges| < n then n - 1 else n);
  }

  /** sequential_int_key_ranges; no row and a zero shard count are its two exceptions. */
  method SequentialIntKeyRanges(smallest: Option<int>, biggest: Option<int>, shards: nat)
    returns (r: Result<seq<Range>, RangeError>)
    requires smallest.Some? == biggest.Some?
    requires smallest.Some? ==> smallest.value <= biggest.value
    ensures smallest.None? ==> r == Err(NoRows)
    ensures smallest.Some? && shards == 0 ==> r == Err(ZeroShards)
    ensures smallest.Some? && shards > 0 ==> r == Ok(SequentialRanges(smallest.value, biggest.value, shards))
  {
    if smallest.None? {
      return Err(NoRows);
    }
    if shards == 0 {
      return Err(ZeroShards);
    }
    var first, last := smallest.value, biggest.value;
    var size := ShardSize(first, last, shards);
    var ranges := CollectRanges(first, last, size);
    ranges := ranges[|ranges| - 1 := Range(Some(last - size), Some(last + 1))];
    assert ranges == SequentialRanges(first, last, shards);
    r := Ok(ranges);
  }

  /** Every key between the smallest and the biggest lies in some range. */
  lemma SequentialCovers(smallest: int, biggest: int, shards: int, key: int)
    requires smallest <= key <= biggest && shards > 0
    ensures exists i :: 0 <= i < |SequentialRanges(smallest, biggest, shards)|
                        && Contains(SequentialRanges(smallest, biggest, shards)[i], key)
  {
    var size, r := ShardSize(smallest, biggest, shards), SequentialRanges(smallest, biggest, shards);
    var i: nat := 0;
    while i < |r| - 1 && smallest + Offset(size, i + 1) <= key
      invariant i <= |r| - 1 && smallest + Offset(size, i) <= key
    {
      i := i + 1;
    }
    if i < |r| - 1 {
      assert r[i] == Step(smallest, size, i);
    } else {
      assert biggest - size <= smallest + Offset(size, i);
    }
    assert Contains(r[i], key);
  }

  /**
   Only the last two ranges ever overlap: a key lies in ranges i < j exactly when these are the last
   two and the key is one of the n*size - gap keys from `biggest - size` on.
   */
  lemma SequentialOverlap(smallest: int, biggest: int, shards: int, i: int, j: int, key: int)
    requires smallest <= biggest && shards > 0
    requires 0 <= i < j < |SequentialRanges(smallest, biggest, shards)|
    ensures var r, size := SequentialRanges(smallest, biggest, shards), ShardSize(smallest, biggest, shards);
            && 0 <= |r| * size - (biggest - smallest)
            && (Contains(r[i], key) && Contains(r[j], key) <==>
                j == |r| - 1 && i == j - 1
                && biggest - size <= key < biggest - size + (|r| * size - (biggest - smallest)))
  {
    var size, r := ShardSize(smallest, biggest, shards), SequentialRanges(smallest, biggest, shards);
    var n := |r|;
    OffsetIsProduct(size, n);
    assert Offset(size, n) == Offset(size, n - 1) + size && Offset(size, n - 1) == Offset(size, n - 2) + size;
    assert r[i] == Step(smallest, size, i);
    OffsetMonotone(size, i, n - 2);
    if j < n - 1 {
      assert r[j] == Step(smallest, size, j);
      OffsetMonotone(size, i, j);
    }
  }

  /** The number of ranges stays within the request exactly when the keys fit the shard count. */
  lemma SequentialCount(smallest: int, biggest: int, shards: int)
    requires smallest <= biggest && shards > 0
    ensures |SequentialRanges(smallest, biggest, shards)| <= shards
            <==> biggest >= shards || biggest - smallest <= shards
  {
    var gap, size := biggest - smallest, ShardSize(smallest, biggest, shards);
    var n := RangeCount(gap, size);
    OffsetIsProduct(size, n);
    OffsetIsProduct(size, n - 1);
    OffsetIsProduct(size, shards);
    if biggest >= shards && n > shards {
      OffsetMonotone(size, shards, n - 1);
    }
  }

  /** Six keys from -4 to 1 get five ranges although three were asked for. */
  lemma CountExample()
    ensures |SequentialRanges(-4, 1, 3)| == 5
  {
  }

  /** Keys 1 to 11 in three ranges: the last two both hold 7 and 8. */
  lemma OverlapExample()
    ensures SequentialRanges(1, 11, 3)
            == [Range(Some(1), Some(5)), Range(Some(5), Some(9)), Range(Some(7), Some(12))]
  {
  }
}
