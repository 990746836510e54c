/** The marker-cached pagination of djangae/contrib/pagination/paginator.py. */
module Paging {
  import opened Common
  import opened Lex

  type Key = seq<int>

  /** What the paginator is built from: the keys of the matched rows in query order, and its settings. */
  datatype Listing = Listing(keys: seq<Key>, descending: bool, perPage: nat, readahead: nat, allowEmpty: bool)

  /** a comes strictly before b in the query. */
  predicate Before(descending: bool, a: Key, b: Key) {
    if descending then Less(b, a) else Less(a, b)
  }

  predicate WfListing(l: Listing) {
    && l.perPage >= 1
    && forall i, j :: 0 <= i < j < |l.keys| ==> Before(l.descending, l.keys[i], l.keys[j])
  }

  /** A Python slice s[from:to]. */
  function Slice<T>(s: seq<T>, from: nat, to: nat): seq<T> {
    var hi := Min(to, |s|);
    if from <= hi then s[from..hi] else []
  }

  lemma SliceLength<T>(s: seq<T>, a: nat, b: nat)
    ensures |Slice(s, a, b)| == Max(Min(b, |s|) - a, 0)
    ensures forall i :: 0 <= i < |Slice(s, a, b)| ==> Slice(s, a, b)[i] == s[a + i]
  {
  }

  lemma SliceOfRest<T>(s: seq<T>, base: nat, d: nat, e: nat)
    requires d <= e
    ensures Slice(Slice(s, base, |s|), d, e) == Slice(s, base + d, base + e)
  {
    var r := Slice(s, base, |s|);
    if base <= |s| && d <= |r| {
      assert r == s[base..] && Min(e, |r|) == Min(base + e, |s|) - base;
      assert s[base..][d..Min(e, |r|)] == s[base + d..Min(base + e, |s|)];
    } else {
      assert Slice(r, d, e) == [] && Slice(s, base + d, base + e) == [];
    }
  }

  lemma SliceHead<T>(s: seq<T>, a: nat, b: nat, k: nat)
    requires a + k <= b
    ensures Slice(Slice(s, a, b), 0, k) == Slice(s, a, a + k)
  {
    if a <= |s| {
      assert Slice(s, a, b) == s[a..Min(b, |s|)];
      assert s[a..Min(b, |s|)][..Min(k, Min(b, |s|) - a)] == s[a..Min(a + k, |s|)];
    } else {
      assert Slice(s, a, b) == [] && Slice(s, a, a + k) == [];
    }
  }

  lemma SliceTail<T>(s: seq<T>, a: nat, b: nat, d: nat)
    ensures Slice(Slice(s, a, b), d, |Slice(s, a, b)|) == Slice(s, a + d, b)
  {
    var r := Slice(s, a, b);
    if d <= |r| && a <= Min(b, |s|) {
      assert s[a..Min(b, |s|)][d..] == s[a + d..Min(b, |s|)];
    } else {
      assert Slice(r, d, |r|) == [] && Slice(s, a + d, b) == [];
    }
  }

  /** What page n is supposed to show. */
  function PlainPage(l: Listing, n: int): seq<Key>
    requires n >= 1
  {
    Slice(l.keys, PageStart(l, n), PageStart(l, n + 1))
  }

  /** The position of the first row of page n. */
  function PageStart(l: Listing, n: int): (r: nat)
    requires n >= 1
  {
    if n == 1 then 0 else PageStart(l, n - 1) + l.perPage
  }

  lemma {:induction false} PageStartIsProduct(l: Listing, n: int)
    requires n >= 1
    ensures PageStart(l, n) == (n - 1) * l.perPage
  {
    if n > 1 {
      PageStartIsProduct(l, n - 1);
      assert (n - 1) * l.perPage == (n - 2) * l.perPage + l.perPage;
    }
  }

  /** The filter on rows past the marker. */
  function RowsPast(l: Listing, keys: seq<Key>, marker: Key): seq<Key> {
    if keys == [] then []
    else (if Before(l.descending, marker, keys[0]) then [keys[0]] else []) + RowsPast(l, keys[1..], marker)
  }

  // ------------------------------------------------------------ the marker cache

  type Cache = map<int, Key>

  /** A cached value that the code takes for a marker; an empty one is falsy. */
  predicate Has(c: Cache, n: int) {
    n in c && c[n] != []
  }

  /** The marker that belongs to page n: the key of the page's last row. */
  predicate RightMarker(l: Listing, n: int, key: Key) {
    && n >= 1 && l.perPage >= 1 && PageStart(l, n) < |l.keys|
    && key == l.keys[Min(PageStart(l, n + 1), |l.keys|) - 1]
  }

  /** Every cached marker is the key of the last row of its page. */
  predicate Aligned(l: Listing, c: Cache) {
    forall n :: n in c ==> RightMarker(l, n, c[n])
  }

  /** How many pages _get_marker goes back before it finds a marker or runs out of pages. */
  function Skipped(c: Cache, counter: int): (r: nat)
    decreases counter
  {
    if counter <= 0 || Has(c, counter) then 0 else 1 + Skipped(c, counter - 1)
  }

  function MarkerOf(c: Cache, counter: int): Option<Key>
    decreases counter
  {
    if counter <= 0 then None else if Has(c, counter) then Some(c[counter]) else MarkerOf(c, counter - 1)
  }

  // --------------------------------------------------------- what one call does

  /** k whole pages of rows. */
  function Span(l: Listing, k: nat): nat {
    PageStart(l, k + 1)
  }

  lemma {:induction false} PageStartAdd(l: Listing, n: int, k: nat)
    requires n >= 1
    ensures PageStart(l, n + k) == PageStart(l, n) + Span(l, k)
  {
    if k > 0 {
      PageStartAdd(l, n, k - 1);
    }
  }

  /** The query that a call slices: all rows from the page after the marker on. */
  function Queried(l: Listing, c: Cache, n: int): seq<Key> {
    var marker := MarkerOf(c, n - 1);
    if marker.Some? then RowsPast(l, l.keys, marker.value) else l.keys
  }

  /** Everything a call for page n fetches: its page and the read-ahead. */
  function Results(l: Listing, c: Cache, n: int): seq<Key>
    requires n >= 1
  {
    var bottom := Span(l, Skipped(c, n - 1));
    Slice(Queried(l, c, n), bottom, bottom + Span(l, 1 + l.readahead))
  }

  /** The rows the caller sees. */
  function Shown(l: Listing, c: Cache, n: int): seq<Key>
    requires n >= 1
  {
    Slice(Results(l, c, n), 0, l.perPage)
  }

  /** The marker of a page that starts with these rows. */
  function LastOfPage(l: Listing, rows: seq<Key>): Key
    requires rows != [] && l.perPage >= 1
  {
    rows[Min(l.perPage, |rows|) - 1]
  }

  /** The markers stored for the rows of page p and the following pages. */
  function WithAhead(l: Listing, c: Cache, rows: seq<Key>, p: int): Cache
    requires l.perPage >= 1
    decreases |rows|
  {
    if rows == [] then c
    else WithAhead(l, c[p := LastOfPage(l, rows)], rows[Min(l.perPage, |rows|)..], p + 1)
  }

  /** The part of the results that the code takes for the pages after n. */
  function AheadRows(l: Listing, c: Cache, n: int): seq<Key>
    requires n >= 1
  {
    var r := Results(l, c, n);
    Slice(r, Span(l, Skipped(c, n - 1) + 1), |r|)
  }

  function CacheAfter(l: Listing, c: Cache, n: int): Cache
    requires n >= 1 && l.perPage >= 1
  {
    var r := Results(l, c, n);
    var ahead := WithAhead(l, c, AheadRows(l, c, n), n + 1);
    if r == [] then ahead else ahead[n := LastOfPage(l, r)]
  }

  /**
   The read-ahead is stored under the right pages: no page was skipped, or nothing is fetched beyond
   the skipped ones.
   */
  predicate AheadSafe(l: Listing, c: Cache, n: int)
    requires n >= 1
  {
    var skipped := Skipped(c, n - 1);
    skipped == 0 || l.readahead <= skipped || |l.keys| <= PageStart(l, n + 1 + skipped)
  }

  // --------------------------------------------------------------------- proofs

  lemma {:induction false} BeforeIrreflexive(d: bool, a: Key)
    ensures !Before(d, a, a)
  {
    LessIrreflexive(a);
  }

  lemma BeforeAsymmetric(d: bool, a: Key, b: Key)
    requires Before(d, a, b)
    ensures !Before(d, b, a) && a != b
  {
    if d { LessAsymmetric(b, a); } else { LessAsymmetric(a, b); }
    LessIrreflexive(a);
  }

  /** Filtering by the key of row e - 1 leaves exactly the rows from e on. */
  lemma {:induction false} RowsPastIsSuffix(l: Listing, keys: seq<Key>, marker: Key, e: nat)
    requires e <= |keys|
    requires forall i :: 0 <= i < e ==> !Before(l.descending, marker, keys[i])
    requires forall i :: e <= i < |keys| ==> Before(l.descending, marker, keys[i])
    ensures RowsPast(l, keys, marker) == keys[e..]
  {
    hide Before;
    if keys != [] {
      if e == 0 {
        RowsPastIsSuffix(l, keys[1..], marker, 0);
        assert keys == [keys[0]] + keys[1..];
      } else {
        RowsPastIsSuffix(l, keys[1..], marker, e - 1);
        assert keys[e..] == keys[1..][e - 1..];
      }
    }
  }

  lemma RowsPastMarker(l: Listing, e: nat)
    requires WfListing(l) && 1 <= e <= |l.keys|
    ensures RowsPast(l, l.keys, l.keys[e - 1]) == l.keys[e..]
  {
    forall i | 0 <= i < e ensures !Before(l.descending, l.keys[e - 1], l.keys[i]) {
      if i < e - 1 {
        BeforeAsymmetric(l.descending, l.keys[i], l.keys[e - 1]);
      } else {
        BeforeIrreflexive(l.descending, l.keys[i]);
      }
    }
    RowsPastIsSuffix(l, l.keys, l.keys[e - 1], e);
  }

  /** The marker found is that of the nearest page with one, which the pages passed over have not. */
  lemma {:induction false} MarkerFound(c: Cache, counter: int)
    requires counter >= 0
    ensures Skipped(c, counter) <= counter
    ensures forall m :: counter - Skipped(c, counter) < m <= counter ==> !Has(c, m)
    ensures MarkerOf(c, counter).None? ==> Skipped(c, counter) == counter
    ensures MarkerOf(c, counter).Some? ==>
              Has(c, counter - Skipped(c, counter)) && MarkerOf(c, counter) == Some(c[counter - Skipped(c, counter)])
              && counter - Skipped(c, counter) >= 1
    decreases counter
  {
    if counter > 0 && !Has(c, counter) {
      MarkerFound(c, counter - 1);
    }
  }

  /** A cached empty value is passed over, as if there was none. */
  lemma EmptyMarkerIsNone(c: Cache, n: int)
    requires n >= 1
    ensures MarkerOf(c[n := []], n) == MarkerOf(c - {n}, n) && Skipped(c[n := []], n) == Skipped(c - {n}, n)
  {
    SameBelow(c[n := []], c - {n}, n - 1);
  }

  lemma {:induction false} SameBelow(c: Cache, d: Cache, n: int)
    requires forall k :: k <= n ==> Unchanged(c, d, k)
    ensures MarkerOf(c, n) == MarkerOf(d, n) && Skipped(c, n) == Skipped(d, n)
    decreases n
  {
    if n > 0 {
      assert Unchanged(c, d, n);
      SameBelow(c, d, n - 1);
    }
  }

  lemma AlignedQuery(l: Listing, c: Cache, n: int)
    requires WfListing(l) && Aligned(l, c) && n >= 1
    ensures Skipped(c, n - 1) < n
    ensures Queried(l, c, n) == Slice(l.keys, PageStart(l, n - Skipped(c, n - 1)), |l.keys|)
  {
    hide RowsPast, Before, Skipped, MarkerOf;
    MarkerFound(c, n - 1);
    var m := n - 1 - Skipped(c, n - 1);
    if MarkerOf(c, n - 1).Some? {
      assert RightMarker(l, m, c[m]);
      PageStartPositive(l, m);
      RowsPastMarker(l, Min(PageStart(l, m + 1), |l.keys|));
    }
  }

  /** With aligned markers a call fetches page n and the read-ahead behind it. */
  lemma AlignedResults(l: Listing, c: Cache, n: int)
    requires WfListing(l) && Aligned(l, c) && n >= 1
    ensures Results(l, c, n) == Slice(l.keys, PageStart(l, n), PageStart(l, n + 1 + l.readahead))
  {
    hide WfListing, Skipped, PageStart, Span, Queried, Aligned, Slice;
    AlignedQuery(l, c, n);
    var skipped := Skipped(c, n - 1);
    PageStartAdd(l, n - skipped, skipped);
    PageStartAdd(l, n, 1 + l.readahead);
    SliceOfRest(l.keys, PageStart(l, n - skipped), Span(l, skipped), Span(l, skipped) + Span(l, 1 + l.readahead));
  }

  /** With aligned markers the caller sees the plain page. */
  lemma AlignedShown(l: Listing, c: Cache, n: int)
    requires WfListing(l) && Aligned(l, c) && n >= 1
    ensures Shown(l, c, n) == PlainPage(l, n)
  {
    assert l.perPage >= 1;
    hide WfListing, Results, PageStart, Aligned, Slice;
    AlignedResults(l, c, n);
    PageStartPositive(l, n);
    PageStartOrder(l, n + 1, n + 1 + l.readahead);
    SliceHead(l.keys, PageStart(l, n), PageStart(l, n + 1 + l.readahead), l.perPage);
  }

  lemma PageStartPositive(l: Listing, n: int)
    requires n >= 1 && l.perPage >= 1
    ensures PageStart(l, n + 1) == PageStart(l, n) + l.perPage >= 1
  {
  }

  /** Markers stored for whole pages from the right place are right. */
  lemma {:induction false} AheadAligned(l: Listing, c: Cache, p: int, k: nat)
    requires WfListing(l) && Aligned(l, c) && p >= 1
    ensures Aligned(l, WithAhead(l, c, Slice(l.keys, PageStart(l, p), PageStart(l, p + k)), p))
    decreases k
  {
    var rows := Slice(l.keys, PageStart(l, p), PageStart(l, p + k));
    if rows != [] {
      NonEmptyPages(l, p, k);
      PageMarkerRight(l, p, p + k);
      AheadAligned(l, c[p := LastOfPage(l, rows)], p + 1, k - 1);
      RestOfPages(l, p, k);
    }
  }

  lemma NonEmptyPages(l: Listing, p: int, k: nat)
    requires p >= 1 && Slice(l.keys, PageStart(l, p), PageStart(l, p + k)) != []
    ensures k >= 1
  {
  }

  lemma RestOfPages(l: Listing, p: int, k: nat)
    requires p >= 1 && k >= 1 && l.perPage >= 1
    ensures var rows := Slice(l.keys, PageStart(l, p), PageStart(l, p + k));
            rows[Min(l.perPage, |rows|)..] == Slice(l.keys, PageStart(l, p + 1), PageStart(l, p + 1 + (k - 1)))
  {
    assert PageStart(l, p + 1) == PageStart(l, p) + l.perPage;
    PageStartOrder(l, p + 1, p + k);
    hide PageStart;
    var a, b := PageStart(l, p), PageStart(l, p + k);
    if a + l.perPage <= |l.keys| {
      assert l.keys[a..Min(b, |l.keys|)][l.perPage..] == l.keys[a + l.perPage..Min(b, |l.keys|)];
    }
  }

  lemma {:induction false} AheadEntries(l: Listing, c: Cache, rows: seq<Key>, p: int)
    requires l.perPage >= 1
    ensures forall q :: q < p ==> (q in WithAhead(l, c, rows, p) <==> q in c)
    ensures forall q :: q < p && q in c ==> WithAhead(l, c, rows, p)[q] == c[q]
    ensures rows != [] ==> p in WithAhead(l, c, rows, p) && WithAhead(l, c, rows, p)[p] == LastOfPage(l, rows)
    decreases |rows|
  {
    if rows != [] {
      AheadEntries(l, c[p := LastOfPage(l, rows)], rows[Min(l.perPage, |rows|)..], p + 1);
    }
  }

  /** The entry for page x is as it was. */
  predicate Unchanged(c: Cache, c': Cache, x: int) {
    (x in c' <==> x in c) && (x in c ==> c'[x] == c[x])
  }

  /** From c to c', pages p up to p + k have received the markers of the pages from a on, as far as there are any. */
  predicate HasPages(l: Listing, c: Cache, c': Cache, p: int, a: int, k: int, x: int)
    requires a >= 1
  {
    if p <= x < p + k && PageStart(l, a + (x - p)) < |l.keys|
    then x in c' && RightMarker(l, a + (x - p), c'[x]) else Unchanged(c, c', x)
  }

  /** Storing the k pages from page a on under the pages from p on. */
  lemma {:induction false} StoredAhead(l: Listing, c: Cache, p: int, a: int, k: nat, x: int)
    requires l.perPage >= 1 && a >= 1
    ensures HasPages(l, c, WithAhead(l, c, Slice(l.keys, PageStart(l, a), PageStart(l, a + k)), p), p, a, k, x)
    decreases k
  {
    hide Slice, PageStart, WithAhead, RightMarker, LastOfPage;
    var rows := Slice(l.keys, PageStart(l, a), PageStart(l, a + k));
    if rows == [] {
      NothingAhead(l, c, p);
      NoRowsBehind(l, a, k, x - p);
    } else {
      NonEmptyPages(l, a, k);
      RowsExist(l, a, k);
      PageMarkerRight(l, a, a + k);
      StoredAhead(l, c[p := LastOfPage(l, rows)], p + 1, a + 1, k - 1, x);
      AheadUnfold(l, c, p, a, k);
    }
  }

  lemma AheadUnfold(l: Listing, c: Cache, p: int, a: int, k: nat)
    requires l.perPage >= 1 && a >= 1 && k >= 1 && Slice(l.keys, PageStart(l, a), PageStart(l, a + k)) != []
    ensures var rows := Slice(l.keys, PageStart(l, a), PageStart(l, a + k));
            WithAhead(l, c, rows, p)
            == WithAhead(l, c[p := LastOfPage(l, rows)],
                         Slice(l.keys, PageStart(l, a + 1), PageStart(l, a + 1 + (k - 1))), p + 1)
  {
    hide Slice, PageStart, LastOfPage;
    RestOfPages(l, a, k);
  }

  lemma RowsExist(l: Listing, a: int, k: nat)
    requires a >= 1 && Slice(l.keys, PageStart(l, a), PageStart(l, a + k)) != []
    ensures PageStart(l, a) < |l.keys|
  {
  }

  lemma NoRowsBehind(l: Listing, a: int, k: nat, i: int)
    requires l.perPage >= 1 && a >= 1 && Slice(l.keys, PageStart(l, a), PageStart(l, a + k)) == []
    ensures 0 <= i < k ==> PageStart(l, a + i) >= |l.keys|
  {
    hide PageStart, Slice;
    SliceLength(l.keys, PageStart(l, a), PageStart(l, a + k));
    PageStartOrder(l, a, a + k);
    if 0 <= i < k { PageStartOrder(l, a + i, a); }
  }

  /** With aligned markers the rows taken for the read-ahead start `skipped` pages too late. */
  lemma AheadRowsShifted(l: Listing, c: Cache, n: int)
    requires WfListing(l) && Aligned(l, c) && n >= 1
    ensures AheadRows(l, c, n)
            == Slice(l.keys, PageStart(l, n + 1 + Skipped(c, n - 1)), PageStart(l, n + 1 + l.readahead))
  {
    hide WfListing, Skipped, PageStart, Span, Results, Aligned, Slice;
    AlignedResults(l, c, n);
    PageStartAdd(l, n, Skipped(c, n - 1) + 1);
    SliceTail(l.keys, PageStart(l, n), PageStart(l, n + 1 + l.readahead), Span(l, Skipped(c, n - 1) + 1));
  }

  /** There are such rows exactly when pages were skipped too and the read-ahead reaches beyond them. */
  lemma AheadRowsExist(l: Listing, c: Cache, n: int)
    requires WfListing(l) && Aligned(l, c) && n >= 1
    ensures AheadRows(l, c, n) == []
            <==> l.readahead <= Skipped(c, n - 1) || |l.keys| <= PageStart(l, n + 1 + Skipped(c, n - 1))
  {
    assert l.perPage >= 1;
    hide WfListing, Skipped, PageStart, AheadRows, Aligned, Slice;
    AheadRowsShifted(l, c, n);
    PageStartOrder(l, n + 1 + Skipped(c, n - 1), n + 1 + l.readahead);
    SliceLength(l.keys, PageStart(l, n + 1 + Skipped(c, n - 1)), PageStart(l, n + 1 + l.readahead));
  }

  lemma PageStartOrder(l: Listing, a: int, b: int)
    requires a >= 1 && b >= 1 && l.perPage >= 1
    ensures a < b ==> PageStart(l, a) < PageStart(l, b)
    ensures b <= a ==> PageStart(l, b) <= PageStart(l, a)
  {
    if a < b {
      PageStartAdd(l, a, b - a);
    } else {
      PageStartAdd(l, b, a - b);
    }
  }

  /** A call leaves the markers aligned exactly when its read-ahead is safe. */
  lemma AlignedIffSafe(l: Listing, c: Cache, n: int)
    requires WfListing(l) && Aligned(l, c) && n >= 1
    ensures Aligned(l, CacheAfter(l, c, n)) <==> AheadSafe(l, c, n)
  {
    if AheadSafe(l, c, n) {
      SafeAheadAligned(l, c, n);
      if Results(l, c, n) != [] { OwnMarkerRight(l, c, n); }
    } else {
      var e := MisplacedMarker(l, c, n);
    }
  }

  /**
   What a call with aligned markers leaves in the cache: page n has its own marker, if it has rows; the pages behind it
   that were read ahead have the markers of pages as many further on as pages were skipped; the rest is unchanged.
   */
  lemma MarkersStored(l: Listing, c: Cache, n: int, x: int)
    requires WfListing(l) && Aligned(l, c) && n >= 1
    ensures var c', skipped := CacheAfter(l, c, n), Skipped(c, n - 1);
            if x == n && PageStart(l, n) < |l.keys| then x in c' && RightMarker(l, n, c'[x])
            else if n < x <= n + l.readahead - skipped && PageStart(l, x + skipped) < |l.keys|
            then x in c' && RightMarker(l, x + skipped, c'[x])
            else Unchanged(c, c', x)
  {
    hide WfListing, Skipped, PageStart, AheadRows, Aligned, Slice, Results, RightMarker, LastOfPage, WithAhead;
    RowsFetched(l, c, n);
    if Results(l, c, n) != [] { OwnMarkerRight(l, c, n); }
    AheadStored(l, c, n, x);
  }

  lemma AheadStored(l: Listing, c: Cache, n: int, x: int)
    requires WfListing(l) && Aligned(l, c) && n >= 1
    ensures var skipped := Skipped(c, n - 1);
            HasPages(l, c, WithAhead(l, c, AheadRows(l, c, n), n + 1), n + 1, n + 1 + skipped, l.readahead - skipped, x)
  {
    hide *;
    AheadRowsShifted(l, c, n);
    StoredRows(l, c, AheadRows(l, c, n), n, Skipped(c, n - 1), x);
  }

  lemma StoredRows(l: Listing, c: Cache, rows: seq<Key>, n: int, skipped: nat, x: int)
    requires WfListing(l) && n >= 1
    requires rows == Slice(l.keys, PageStart(l, n + 1 + skipped), PageStart(l, n + 1 + l.readahead))
    ensures HasPages(l, c, WithAhead(l, c, rows, n + 1), n + 1, n + 1 + skipped, l.readahead - skipped, x)
  {
    assert l.perPage >= 1;
    hide WfListing, Slice, PageStart, WithAhead;
    if skipped <= l.readahead {
      hide HasPages;
      assert n + 1 + skipped + (l.readahead - skipped) == n + 1 + l.readahead;
      StoredAhead(l, c, n + 1, n + 1 + skipped, l.readahead - skipped, x);
    } else {
      NoRows(l, n + 1 + skipped, n + 1 + l.readahead);
      NothingAhead(l, c, n + 1);
    }
  }

  lemma NoRows(l: Listing, a: int, b: int)
    requires l.perPage >= 1 && 1 <= b < a
    ensures Slice(l.keys, PageStart(l, a), PageStart(l, b)) == []
  {
    PageStartOrder(l, b, a);
  }

  lemma RowsFetched(l: Listing, c: Cache, n: int)
    requires WfListing(l) && Aligned(l, c) && n >= 1
    ensures Results(l, c, n) == [] <==> PageStart(l, n) >= |l.keys|
  {
    assert l.perPage >= 1;
    hide WfListing, Results, Aligned, PageStart, Slice;
    AlignedResults(l, c, n);
    PageStartOrder(l, n, n + 1 + l.readahead);
    EmptySlice(l.keys, PageStart(l, n), PageStart(l, n + 1 + l.readahead));
  }

  lemma EmptySlice<T>(s: seq<T>, a: nat, b: nat)
    requires a < b
    ensures Slice(s, a, b) == [] <==> a >= |s|
  {
  }

  lemma SafeAheadAligned(l: Listing, c: Cache, n: int)
    requires WfListing(l) && Aligned(l, c) && n >= 1 && AheadSafe(l, c, n)
    ensures Aligned(l, WithAhead(l, c, AheadRows(l, c, n), n + 1))
  {
    if AheadRows(l, c, n) == [] {
      NothingAhead(l, c, n + 1);
    } else {
      AheadRowsExist(l, c, n);
      UnskippedAheadAligned(l, c, n);
    }
  }

  lemma UnskippedAheadAligned(l: Listing, c: Cache, n: int)
    requires WfListing(l) && Aligned(l, c) && n >= 1 && Skipped(c, n - 1) == 0
    ensures Aligned(l, WithAhead(l, c, AheadRows(l, c, n), n + 1))
  {
    hide WfListing, Aligned, PageStart, Slice, WithAhead, AheadRows;
    AheadRowsShifted(l, c, n);
    AheadAligned(l, c, n + 1, l.readahead);
  }

  lemma NothingAhead(l: Listing, c: Cache, p: int)
    requires l.perPage >= 1
    ensures WithAhead(l, c, [], p) == c
  {
  }

  /** The last row of the page that starts a slice. */
  lemma LastOfSlice(l: Listing, a: nat, b: nat)
    requires l.perPage >= 1 && Slice(l.keys, a, b) != [] && a + l.perPage <= b
    ensures a < |l.keys| && LastOfPage(l, Slice(l.keys, a, b)) == l.keys[Min(a + l.perPage, |l.keys|) - 1]
  {
  }

  lemma OwnMarkerRight(l: Listing, c: Cache, n: int)
    requires WfListing(l) && Aligned(l, c) && n >= 1 && Results(l, c, n) != []
    ensures RightMarker(l, n, LastOfPage(l, Results(l, c, n)))
  {
    AlignedResults(l, c, n);
    PageMarkerRight(l, n, n + 1 + l.readahead);
  }

  lemma PageMarkerRight(l: Listing, n: int, m: int)
    requires l.perPage >= 1 && 1 <= n < m && Slice(l.keys, PageStart(l, n), PageStart(l, m)) != []
    ensures RightMarker(l, n, LastOfPage(l, Slice(l.keys, PageStart(l, n), PageStart(l, m))))
  {
    hide PageStart, Slice, LastOfPage;
    PageStartPositive(l, n);
    PageStartOrder(l, n + 1, m);
    LastOfSlice(l, PageStart(l, n), PageStart(l, m));
  }

  /** Otherwise page n + 1 gets the key of a row from a later page. */
  lemma MisplacedMarker(l: Listing, c: Cache, n: int) returns (e: nat)
    requires WfListing(l) && Aligned(l, c) && n >= 1 && !AheadSafe(l, c, n)
    ensures n + 1 in CacheAfter(l, c, n) && PageStart(l, n + 2) <= e < |l.keys|
    ensures CacheAfter(l, c, n)[n + 1] == l.keys[e] && !RightMarker(l, n + 1, l.keys[e])
  {
    assert l.perPage >= 1;
    hide WfListing, CacheAfter, Skipped, PageStart, AheadRows, Aligned, RightMarker, LastOfPage;
    AheadRowsExist(l, c, n);
    FirstAheadMarker(l, c, n);
    e := MisplacedRow(l, c, n);
  }

  lemma MisplacedRow(l: Listing, c: Cache, n: int) returns (e: nat)
    requires WfListing(l) && Aligned(l, c) && n >= 1 && Skipped(c, n - 1) > 0 && AheadRows(l, c, n) != []
    ensures PageStart(l, n + 2) <= e < |l.keys|
    ensures LastOfPage(l, AheadRows(l, c, n)) == l.keys[e] && !RightMarker(l, n + 1, l.keys[e])
  {
    assert l.perPage >= 1;
    hide WfListing, Skipped, PageStart, AheadRows, Aligned, RightMarker, LastOfPage, Slice;
    AheadRowsShifted(l, c, n);
    e := WrongRow(l, n, Skipped(c, n - 1));
  }

  lemma WrongRow(l: Listing, n: int, skipped: int) returns (e: nat)
    requires WfListing(l) && n >= 1 && skipped >= 1
    requires Slice(l.keys, PageStart(l, n + 1 + skipped), PageStart(l, n + 1 + l.readahead)) != []
    ensures PageStart(l, n + 2) <= e < |l.keys| && !RightMarker(l, n + 1, l.keys[e])
    ensures LastOfPage(l, Slice(l.keys, PageStart(l, n + 1 + skipped), PageStart(l, n + 1 + l.readahead))) == l.keys[e]
  {
    hide RightMarker, Slice, LastOfPage, PageStart;
    e := LaterRow(l, n, skipped);
    LaterRowIsWrong(l, n + 1, e);
  }

  lemma FirstAheadMarker(l: Listing, c: Cache, n: int)
    requires l.perPage >= 1 && n >= 1 && AheadRows(l, c, n) != []
    ensures n + 1 in CacheAfter(l, c, n) && CacheAfter(l, c, n)[n + 1] == LastOfPage(l, AheadRows(l, c, n))
  {
    AheadEntries(l, c, AheadRows(l, c, n), n + 1);
  }

  lemma LaterRow(l: Listing, n: int, skipped: int) returns (e: nat)
    requires l.perPage >= 1 && n >= 1 && skipped >= 1
    requires Slice(l.keys, PageStart(l, n + 1 + skipped), PageStart(l, n + 1 + l.readahead)) != []
    ensures PageStart(l, n + 2) <= e < |l.keys|
    ensures LastOfPage(l, Slice(l.keys, PageStart(l, n + 1 + skipped), PageStart(l, n + 1 + l.readahead))) == l.keys[e]
  {
    var a, b := PageStart(l, n + 1 + skipped), PageStart(l, n + 1 + l.readahead);
    SliceLength(l.keys, a, b);
    WholePage(l, n + 1 + skipped, n + 1 + l.readahead);
    LastOfSlice(l, a, b);
    PageStartOrder(l, n + 1 + skipped, n + 2);
    e := Min(a + l.perPage, |l.keys|) - 1;
  }

  /** Different page starts are at least one page apart. */
  lemma WholePage(l: Listing, p: int, q: int)
    requires l.perPage >= 1 && p >= 1 && q >= 1 && PageStart(l, p) < PageStart(l, q)
    ensures PageStart(l, p) + l.perPage <= PageStart(l, q)
  {
    PageStartOrder(l, p, q);
    PageStartPositive(l, p);
    PageStartOrder(l, p + 1, q);
  }

  lemma LaterRowIsWrong(l: Listing, n: int, e: nat)
    requires WfListing(l) && n >= 1 && PageStart(l, n + 1) <= e < |l.keys|
    ensures !RightMarker(l, n, l.keys[e])
  {
    PageStartPositive(l, n);
    BeforeAsymmetric(l.descending, l.keys[PageStart(l, n + 1) - 1], l.keys[e]);
  }

  /**
   The second page after a call is shown correctly next exactly when that call's read-ahead was safe: an
   unsafe read-ahead always makes page n + 2 come out wrong.
   */
  lemma NextPageIffSafe(l: Listing, c: Cache, n: int)
    requires WfListing(l) && Aligned(l, c) && n >= 1 && [] !in l.keys
    ensures Shown(l, CacheAfter(l, c, n), n + 2) == PlainPage(l, n + 2) <==> AheadSafe(l, c, n)
  {
    hide CacheAfter, Shown, PlainPage, Skipped, Aligned;
    var c' := CacheAfter(l, c, n);
    if AheadSafe(l, c, n) {
      AlignedIffSafe(l, c, n);
      AlignedShown(l, c', n + 2);
    } else {
      var e := MisplacedMarker(l, c, n);
      WrongRows(l, c', n + 2, e);
    }
  }

  /** A marker from the page itself or a later one shifts the page. */
  lemma WrongRows(l: Listing, c: Cache, n: int, e: nat)
    requires WfListing(l) && n >= 2 && PageStart(l, n) <= e < |l.keys|
    requires Has(c, n - 1) && c[n - 1] == l.keys[e]
    ensures Shown(l, c, n) != PlainPage(l, n)
  {
    RowsPastMarker(l, e + 1);
    var plain, shown := PlainPage(l, n), Shown(l, c, n);
    assert Span(l, 0) == 0 && Queried(l, c, n) == l.keys[e + 1..];
    PageStartPositive(l, n);
    assert plain[0] == l.keys[PageStart(l, n)];
    if shown != [] {
      assert shown[0] == l.keys[e + 1];
      BeforeAsymmetric(l.descending, plain[0], shown[0]);
    }
  }

  // --------------------------------------------------------------- whole sessions

  /** A request for a page, or the loss of cached markers. */
  datatype Event = Visit(n: int) | Lose(pages: set<int>)

  function Next(l: Listing, c: Cache, e: Event): Cache
    requires WfListing(l) && (e.Visit? ==> e.n >= 1)
  {
    match e
    case Visit(n) => CacheAfter(l, c, n)
    case Lose(pages) => c - pages
  }

  /** Pages are asked for by numbers from 1 on. */
  predicate IsSession(events: seq<Event>) {
    forall i :: 0 <= i < |events| && events[i].Visit? ==> events[i].n >= 1
  }

  function Session(l: Listing, events: seq<Event>): Cache
    requires WfListing(l) && IsSession(events)
  {
    if events == [] then map[]
    else Next(l, Session(l, events[..|events| - 1]), events[|events| - 1])
  }

  /** At most one page is read ahead, or there are at most three pages. */
  predicate SafeListing(l: Listing) {
    l.readahead <= 1 || |l.keys| <= PageStart(l, 4)
  }

  /** Then no call misplaces a marker: the first call that skips a page and reads past it needs a fourth page. */
  lemma SafeListingIsAheadSafe(l: Listing, c: Cache, n: int)
    requires WfListing(l) && SafeListing(l) && n >= 1
    ensures AheadSafe(l, c, n)
  {
    MarkerFound(c, n - 1);
    assert l.perPage >= 1;
    hide WfListing, PageStart, Skipped;
    var skipped := Skipped(c, n - 1);
    if skipped >= 1 && l.readahead > 1 {
      PageStartOrder(l, n + 1 + skipped, 4);
    }
  }

  /** Every page shown in any session of any order and with any losses is right. */
  lemma {:induction false} SafeSessionsAreRight(l: Listing, events: seq<Event>, n: int)
    requires WfListing(l) && SafeListing(l) && IsSession(events) && n >= 1
    ensures Aligned(l, Session(l, events)) && Shown(l, Session(l, events), n) == PlainPage(l, n)
  {
    hide Shown, PlainPage, CacheAfter, AheadSafe;
    if events != [] {
      var front, e := events[..|events| - 1], events[|events| - 1];
      SafeSessionsAreRight(l, front, 1);
      if e.Visit? {
        SafeListingIsAheadSafe(l, Session(l, front), e.n);
        AlignedIffSafe(l, Session(l, front), e.n);
      }
    }
    AlignedShown(l, Session(l, events), n);
  }

  /** Otherwise going to page 2 first and to page 4 next shows a wrong page. */
  lemma SecondPageFirst(l: Listing)
    requires WfListing(l) && [] !in l.keys && !SafeListing(l)
    ensures Shown(l, Session(l, [Visit(2)]), 4) != PlainPage(l, 4)
  {
    assert Skipped(map[], 1) == 1 by { assert Skipped(map[], 0) == 0; }
    assert !AheadSafe(l, map[], 2);
    assert [Visit(2)][..0] == [] && Session(l, []) == map[];
    assert Session(l, [Visit(2)]) == CacheAfter(l, map[], 2);
    hide CacheAfter, Shown, PlainPage, AheadSafe, Session;
    NextPageIffSafe(l, map[], 2);
  }

  /** Going through the pages from the first one on. */
  function InOrder(k: nat): seq<Event> {
    seq(k, i => Visit(i + 1))
  }

  /** Read in order, every page is right, however many are read ahead. */
  lemma {:induction false} ReadInOrder(l: Listing, k: nat)
    requires WfListing(l) && [] !in l.keys
    ensures Aligned(l, Session(l, InOrder(k))) && Shown(l, Session(l, InOrder(k)), k + 1) == PlainPage(l, k + 1)
    ensures k >= 1 && PageStart(l, k) < |l.keys| ==> Has(Session(l, InOrder(k)), k)
  {
    hide Shown, PlainPage, CacheAfter, Aligned, PageStart, WfListing;
    var c := Session(l, InOrder(k));
    NoMarkers(l);
    if k > 0 {
      assert InOrder(k)[..k - 1] == InOrder(k - 1) && InOrder(k)[k - 1] == Visit(k);
      ReadInOrder(l, k - 1);
      NextInOrder(l, Session(l, InOrder(k - 1)), k);
    }
    AlignedShown(l, c, k + 1);
  }

  lemma NoMarkers(l: Listing)
    ensures Aligned(l, map[])
  {
  }

  lemma NextInOrder(l: Listing, c: Cache, n: int)
    requires WfListing(l) && [] !in l.keys && Aligned(l, c) && n >= 1
    requires n >= 2 && PageStart(l, n - 1) < |l.keys| ==> Has(c, n - 1)
    ensures Aligned(l, CacheAfter(l, c, n))
    ensures PageStart(l, n) < |l.keys| ==> Has(CacheAfter(l, c, n), n)
  {
    InOrderIsSafe(l, c, n);
    hide WfListing, CacheAfter, Aligned, AheadSafe, PageStart;
    AlignedIffSafe(l, c, n);
    MarkersStored(l, c, n, n);
  }

  lemma InOrderIsSafe(l: Listing, c: Cache, n: int)
    requires l.perPage >= 1 && n >= 1 && (n >= 2 && PageStart(l, n - 1) < |l.keys| ==> Has(c, n - 1))
    ensures AheadSafe(l, c, n)
  {
    MarkerFound(c, n - 1);
    if Skipped(c, n - 1) != 0 {
      PageStartOrder(l, n + 1 + Skipped(c, n - 1), n - 1);
    }
  }

  /** Every page of every session is the plain page. */
  ghost predicate AllSessionsRight(l: Listing)
    requires WfListing(l)
  {
    forall events, n :: IsSession(events) && n >= 1 ==> Shown(l, Session(l, events), n) == PlainPage(l, n)
  }

  /** That is so if and only if at most one page is read ahead or there are at most three pages. */
  lemma SessionsRightIff(l: Listing)
    requires WfListing(l) && [] !in l.keys
    ensures AllSessionsRight(l) <==> SafeListing(l)
  {
    hide Shown, PlainPage, Session;
    if SafeListing(l) {
      forall events, n | IsSession(events) && n >= 1 ensures Shown(l, Session(l, events), n) == PlainPage(l, n) {
        SafeSessionsAreRight(l, events, n);
      }
    } else {
      SecondPageFirst(l);
      assert IsSession([Visit(2)]);
    }
  }

  // -------------------------------------------------------------------- the code

  datatype PageError = PageBelowOne | EmptyPage

  class Paginator {
    const listing: Listing
    var cache: Cache
    var knownCount: nat

    constructor (listing: Listing)
      ensures this.listing == listing && cache == map[] && knownCount == 0
    {
      this.listing := listing;
      cache, knownCount := map[], 0;
    }

    /** The cache may lose any entry at any time, and the known count with it. */
    method Evict(pages: set<int>, count: bool)
      modifies this
      ensures cache == old(cache) - pages && knownCount == if count then 0 else old(knownCount)
      ensures Aligned(listing, old(cache)) ==> Aligned(listing, cache)
    {
      cache := cache - pages;
      if count {
        knownCount := 0;
      }
    }

    method GetMarker(number: int) returns (marker: Option<Key>, skipped: nat)
      requires number >= 1
      ensures marker == MarkerOf(cache, number - 1) && skipped == Skipped(cache, number - 1)
    {
      var counter := number - 1;
      skipped := 0;
      while counter > 0
        invariant 0 <= counter
        invariant MarkerOf(cache, counter) == MarkerOf(cache, number - 1)
        invariant skipped + Skipped(cache, counter) == Skipped(cache, number - 1)
      {
        if Has(cache, counter) {
          return Some(cache[counter]), skipped;
        }
        counter := counter - 1;
        skipped := skipped + 1;
      }
      marker := None;
    }

    method UpdateKnownCount(count: nat)
      modifies this`knownCount
      ensures knownCount == Max(old(knownCount), count)
    {
      if knownCount != 0 && knownCount > count {
        return;
      }
      knownCount := count;
    }

    /** The loop that stores the markers of the pages ahead. */
    method StoreAhead(rows: seq<Key>, page: int)
      requires listing.perPage >= 1
      modifies this`cache
      ensures cache == WithAhead(listing, old(cache), rows, page)
    {
      var nextPage, counter := rows, page;
      while nextPage != []
        invariant WithAhead(listing, cache, nextPage, counter) == WithAhead(listing, old(cache), rows, page)
        decreases |nextPage|
      {
        var index := if |nextPage| > listing.perPage - 1 then listing.perPage - 1 else |nextPage| - 1;
        cache := cache[counter := nextPage[index]];
        counter := counter + 1;
        nextPage := nextPage[Min(listing.perPage, |nextPage|)..];
      }
    }

    /** The work of one call: the query, the markers ahead, the known count, and the page's own marker. */
    method Serve(number: int) returns (r: Result<seq<Key>, PageError>)
      requires WfListing(listing)
      modifies this
      ensures number < 1 ==> r == Err(PageBelowOne) && cache == old(cache) && knownCount == old(knownCount)
      ensures number >= 1 && Results(listing, old(cache), number) == [] && !listing.allowEmpty ==>
                r == Err(EmptyPage) && cache == old(cache) && knownCount == old(knownCount)
      ensures number >= 1 && !(Results(listing, old(cache), number) == [] && !listing.allowEmpty) ==>
                && r == Ok(Shown(listing, old(cache), number))
                && cache == CacheAfter(listing, old(cache), number)
                && knownCount == Max(old(knownCount),
                                     PageStart(listing, number) + |Results(listing, old(cache), number)|)
    {
      if number < 1 {
        return Err(PageBelowOne);
      }
      var results, ahead, known := Fetch(number);
      hide WfListing, Results, AheadRows, PageStart, WithAhead, Slice, LastOfPage;
      StoreAhead(ahead, number + 1);
      if results == [] && !listing.allowEmpty {
        NothingAhead(listing, old(cache), number + 1);
        return Err(EmptyPage);
      }
      r := Finish(number, results, known);
    }

    /** The known count, the page, and the page's own marker. */
    method Finish(number: int, results: seq<Key>, known: nat) returns (r: Result<seq<Key>, PageError>)
      requires listing.perPage >= 1
      modifies this
      ensures r == Ok(Slice(results, 0, listing.perPage)) && knownCount == Max(old(knownCount), known)
      ensures cache == if results == [] then old(cache) else old(cache)[number := LastOfPage(listing, results)]
    {
      hide Slice, LastOfPage;
      UpdateKnownCount(known);
      var shown := Slice(results, 0, listing.perPage);
      if results != [] {
        StoreOwn(number, results, shown);
      }
      r := Ok(shown);
    }

    /**
     Paginator.page. With aligned markers the rows are the plain page, whatever was cached, and the markers
     stay aligned exactly when the read-ahead is safe. The known count never shrinks, and stays within the
     number of rows exactly when it did before and the page does not start past the end.
     */
    method Page(number: int) returns (r: Result<seq<Key>, PageError>)
      requires WfListing(listing)
      modifies this
      ensures number < 1 ==> r == Err(PageBelowOne) && cache == old(cache) && knownCount == old(knownCount)
      ensures number >= 1 && Results(listing, old(cache), number) == [] && !listing.allowEmpty ==>
                r == Err(EmptyPage) && cache == old(cache) && knownCount == old(knownCount)
      ensures number >= 1 && !(Results(listing, old(cache), number) == [] && !listing.allowEmpty) ==>
                && r == Ok(Shown(listing, old(cache), number))
                && cache == CacheAfter(listing, old(cache), number)
                && knownCount == Max(old(knownCount),
                                     PageStart(listing, number) + |Results(listing, old(cache), number)|)
      ensures r.Ok? && r.value != [] ==> number in cache && cache[number] == r.value[|r.value| - 1]
      ensures Aligned(listing, old(cache)) && r.Ok? ==>
                && number >= 1 && r.value == PlainPage(listing, number)
                && (Aligned(listing, cache) <==> AheadSafe(listing, old(cache), number))
                && (knownCount <= |listing.keys| <==>
                      old(knownCount) <= |listing.keys| && PageStart(listing, number) <= |listing.keys|)
      ensures Aligned(listing, old(cache)) && r == Err(EmptyPage) ==> PlainPage(listing, number) == []
    {
      hide WfListing, Results, Shown, CacheAfter, PageStart, Aligned, AheadSafe, PlainPage;
      r := Serve(number);
      if r.Ok? && r.value != [] { OwnMarker(listing, old(cache), number); }
      if number >= 1 && Aligned(listing, old(cache)) {
        CallOutcome(listing, old(cache), number);
      }
    }

    /** The marker of the page itself. */
    method StoreOwn(number: int, ghost results: seq<Key>, shown: seq<Key>)
      requires listing.perPage >= 1 && results != [] && shown == Slice(results, 0, listing.perPage)
      modifies this`cache
      ensures cache == old(cache)[number := LastOfPage(listing, results)]
    {
      var index := if |shown| > listing.perPage - 1 then listing.perPage - 1 else |shown| - 1;
      cache := cache[number := shown[index]];
    }

    /** The query of one call, the part of it that is read ahead, and how many rows it shows to exist. */
    method Fetch(number: int) returns (results: seq<Key>, ahead: seq<Key>, known: nat)
      requires WfListing(listing) && number >= 1
      ensures results == Results(listing, cache, number) && ahead == AheadRows(listing, cache, number)
      ensures results == [] ==> ahead == []
      ensures known == PageStart(listing, number) + |results|
    {
      var marker, pages := GetMarker(number);
      BottomIsSpan(listing, pages, number);
      ReadAheadSpan(listing);
      var bottom := pages * listing.perPage;
      var top := bottom + listing.perPage;
      var rows := if marker.Some? then RowsPast(listing, listing.keys, marker.value) else listing.keys;
      results := Slice(rows, bottom, top + listing.perPage * listing.readahead);
      ahead := Slice(results, top, |results|);
      known := (number - 1) * listing.perPage + |results|;
    }
  }

  lemma BottomIsSpan(l: Listing, pages: nat, number: int)
    requires number >= 1
    ensures pages * l.perPage == Span(l, pages) && pages * l.perPage + l.perPage == Span(l, pages + 1)
    ensures (number - 1) * l.perPage == PageStart(l, number)
  {
    PageStartIsProduct(l, pages + 1);
    PageStartIsProduct(l, number);
  }

  lemma ReadAheadSpan(l: Listing)
    ensures l.perPage + l.perPage * l.readahead == Span(l, 1 + l.readahead)
  {
    PageStartIsProduct(l, 1 + l.readahead);
  }

  /** Whatever was cached, the page's own marker is the key of the last row shown. */
  lemma OwnMarker(l: Listing, c: Cache, n: int)
    requires WfListing(l) && n >= 1 && Shown(l, c, n) != []
    ensures var c', shown := CacheAfter(l, c, n), Shown(l, c, n); n in c' && c'[n] == shown[|shown| - 1]
  {
    hide Results, AheadRows;
  }

  /** Everything about one call with aligned markers. */
  lemma CallOutcome(l: Listing, c: Cache, n: int)
    requires WfListing(l) && Aligned(l, c) && n >= 1
    ensures Shown(l, c, n) == PlainPage(l, n)
    ensures Aligned(l, CacheAfter(l, c, n)) <==> AheadSafe(l, c, n)
    ensures PageStart(l, n) + |Results(l, c, n)| <= |l.keys| <==> PageStart(l, n) <= |l.keys|
    ensures Results(l, c, n) == [] ==> PlainPage(l, n) == []
  {
    AlignedShown(l, c, n);
    AlignedIffSafe(l, c, n);
    hide Shown, PlainPage, CacheAfter, AheadSafe, Aligned;
    FetchedWithin(l, c, n);
  }

  lemma FetchedWithin(l: Listing, c: Cache, n: int)
    requires WfListing(l) && Aligned(l, c) && n >= 1
    ensures PageStart(l, n) + |Results(l, c, n)| <= |l.keys| <==> PageStart(l, n) <= |l.keys|
    ensures Results(l, c, n) == [] ==> PlainPage(l, n) == []
  {
    assert l.perPage >= 1;
    hide WfListing, Results, Aligned, PageStart, Slice;
    AlignedResults(l, c, n);
    PageStartOrder(l, n, n + 1 + l.readahead);
    PageStartOrder(l, n, n + 1);
    SliceLength(l.keys, PageStart(l, n), PageStart(l, n + 1 + l.readahead));
    SliceLength(l.keys, PageStart(l, n), PageStart(l, n + 1));
  }
}
