/** Pages and sort keys together: what a user of the paginator sees of rows sorted by their fields. */
module Pagination {
  import opened Paging
  import S = SortKey

  /**
   Rows in the order of their field tuples, of which an ordering has at least one; no two first differ in values of
   which NUL continues one to the other.
   */
  predicate Sorted(rows: seq<S.Instance>) {
    && (forall i :: 0 <= i < |rows| ==> rows[i].fields != [] && S.AllInRange(rows[i].fields))
    && forall i, j :: 0 <= i < j < |rows|
                      ==> && S.SameOrdering(rows[i].fields, rows[j].fields)
                          && !S.NulClash(rows[i].fields, rows[j].fields)
                          && S.TupleLess(rows[i].fields, rows[i].pk, rows[j].fields, rows[j].pk)
  }

  /** A single descending field is stored plainly and queried in reverse, ties included. */
  predicate SortedInReverse(rows: seq<S.Instance>) {
    && (forall i :: 0 <= i < |rows|
                    ==> |rows[i].fields| == 1 && !rows[i].fields[0].negated && S.AllInRange(rows[i].fields))
    && forall i, j :: 0 <= i < j < |rows|
                      ==> !S.NulClash(rows[j].fields, rows[i].fields)
                          && S.TupleLess(rows[j].fields, rows[j].pk, rows[i].fields, rows[i].pk)
  }

  /** The listing a paginator is built on for these rows. */
  predicate Lists(l: Listing, rows: seq<S.Instance>) {
    l.perPage >= 1 && l.keys == S.KeysOf(rows) && if l.descending then SortedInReverse(rows) else Sorted(rows)
  }

  /** No two rows first differ in a descending field where one value is a prefix of the other. */
  predicate ClashFree(rows: seq<S.Instance>) {
    forall i, j :: 0 <= i < j < |rows|
                   ==> S.SameOrdering(rows[i].fields, rows[j].fields) && !S.PrefixClash(rows[i].fields, rows[j].fields)
  }

  /** The keys of sorted rows are strictly in the order of the query if and only if no two rows clash. */
  lemma ListedIffClashFree(l: Listing, rows: seq<S.Instance>)
    requires Lists(l, rows)
    ensures WfListing(l) <==> ClashFree(rows)
  {
    forall i, j | 0 <= i < j < |rows|
      ensures S.SameOrdering(rows[i].fields, rows[j].fields)
      ensures Before(l.descending, l.keys[i], l.keys[j]) <==> !S.PrefixClash(rows[i].fields, rows[j].fields)
    {
      if l.descending {
        assert rows[i].fields[1..] == [] && rows[j].fields[1..] == [];
        S.KeyOrder(rows[j].fields, rows[j].pk, rows[i].fields, rows[i].pk);
      } else {
        S.KeyOrder(rows[i].fields, rows[i].pk, rows[j].fields, rows[j].pk);
      }
    }
  }

  lemma NoEmptyKey(l: Listing, rows: seq<S.Instance>)
    requires Lists(l, rows)
    ensures [] !in l.keys
  {
    forall i | 0 <= i < |rows| ensures l.keys[i] != [] {
      S.KeyUnfold(rows[i].fields, rows[i].pk);
    }
  }

  lemma KeysOfSlice(rows: seq<S.Instance>, a: nat, b: nat)
    ensures Slice(S.KeysOf(rows), a, b) == S.KeysOf(Slice(rows, a, b))
  {
  }

  /** Page n shows the rows from (n - 1) * perPage up to n * perPage. */
  ghost predicate ShowsRows(l: Listing, rows: seq<S.Instance>, events: seq<Event>, n: int)
    requires WfListing(l) && IsSession(events) && n >= 1
  {
    && 0 <= (n - 1) * l.perPage <= n * l.perPage
    && Shown(l, Session(l, events), n) == S.KeysOf(Slice(rows, (n - 1) * l.perPage, n * l.perPage))
  }

  lemma PlainPageRows(l: Listing, rows: seq<S.Instance>, events: seq<Event>, n: int)
    requires WfListing(l) && l.keys == S.KeysOf(rows) && IsSession(events) && n >= 1
    ensures ShowsRows(l, rows, events, n) <==> Shown(l, Session(l, events), n) == PlainPage(l, n)
  {
    hide Shown, S.KeysOf, Slice, WfListing, Session;
    PageStartIsProduct(l, n);
    PageStartIsProduct(l, n + 1);
    KeysOfSlice(rows, PageStart(l, n), PageStart(l, n + 1));
  }

  /** Every page of every session - pages in any order, markers lost at any time - shows its rows. */
  ghost predicate AllShowRows(l: Listing, rows: seq<S.Instance>)
    requires WfListing(l)
  {
    forall events, n :: IsSession(events) && n >= 1 ==> ShowsRows(l, rows, events, n)
  }

  lemma AllShowRowsIff(l: Listing, rows: seq<S.Instance>)
    requires WfListing(l) && l.keys == S.KeysOf(rows)
    ensures AllShowRows(l, rows) <==> AllSessionsRight(l)
  {
    hide WfListing, S.KeysOf, Shown, Session, PlainPage, ShowsRows;
    forall events, n | IsSession(events) && n >= 1
      ensures ShowsRows(l, rows, events, n) <==> Shown(l, Session(l, events), n) == PlainPage(l, n)
    {
      PlainPageRows(l, rows, events, n);
    }
  }

  /**
   For sorted rows without clashes every page of every session shows its rows if and only if at most one page is
   read ahead or the rows fill at most three pages.
   */
  lemma PagesAreRowsIff(l: Listing, rows: seq<S.Instance>)
    requires Lists(l, rows) && ClashFree(rows)
    ensures WfListing(l) && (AllShowRows(l, rows) <==> l.readahead <= 1 || |rows| <= 3 * l.perPage)
  {
    assert l.keys == S.KeysOf(rows) && |l.keys| == |rows|;
    hide Lists, ClashFree, WfListing, PageStart, S.KeysOf, AllShowRows, AllSessionsRight;
    ListedIffClashFree(l, rows);
    NoEmptyKey(l, rows);
    PageStartIsProduct(l, 4);
    SessionsRightIff(l);
    AllShowRowsIff(l, rows);
  }
}
