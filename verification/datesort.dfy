/** Sorting newest first with the repositories' comparator
    `(a, b) => a.date && b.date ? time(b) - time(a) : 0`.  Two items are
    only ever reordered when both have a date; a missing date compares
    equal to everything.  Because that comparator is not transitive, an
    engine's `sort` may order such inputs in any way; the model fixes one
    stable order: insertion sort that places each earlier item before every
    later item it is not strictly older than. */
module DateSort {
  import opened Options
  import opened Seqs
  import opened Content

  /** `a` must precede `b`: both dated and `a` strictly later. */
  predicate Newer(a: ContentItem, b: ContentItem) {
    a.date.Some? && b.date.Some? && a.date.value > b.date.value
  }

  /** No adjacent pair is out of date order. */
  predicate DateOrdered(s: seq<ContentItem>) {
    forall i :: 0 < i < |s| ==> !Newer(s[i], s[i - 1])
  }

  lemma PrefixOrdered(s: seq<ContentItem>, k: nat)
    requires k <= |s| && DateOrdered(s)
    ensures DateOrdered(s[..k])
  {
    assert forall i :: 0 <= i < k ==> s[..k][i] == s[i];
  }

  /** Inserts `x` in front of the first element that is not strictly newer. */
  function Insert(x: ContentItem, s: seq<ContentItem>): (r: seq<ContentItem>)
    ensures |r| == |s| + 1
    ensures multiset(r) == multiset(s) + multiset{x}
    ensures r[0] == x || (s != [] && r[0] == s[0])
    ensures DateOrdered(s) ==> DateOrdered(r)
  {
    if s == [] then [x]
    else if Newer(s[0], x) then
      assert s == [s[0]] + s[1..];
      [s[0]] + Insert(x, s[1..])
    else [x] + s
  }

  /** The items newest first; items the comparator cannot tell apart keep
      their input order. */
  function SortByDate(s: seq<ContentItem>): (r: seq<ContentItem>)
    ensures |r| == |s|
    ensures multiset(r) == multiset(s)
    ensures DateOrdered(r)
  {
    if s == [] then []
    else
      assert s == [s[0]] + s[1..];
      Insert(s[0], SortByDate(s[1..]))
  }

  /** Sorting neither adds nor drops items. */
  lemma SortKeepsMembers(s: seq<ContentItem>)
    ensures forall x :: x in SortByDate(s) <==> x in s
  {
    var r := SortByDate(s);
    assert forall x :: x in r <==> x in multiset(r);
  }

  function DatedAs(d: Option<int>): ContentItem -> bool {
    (x: ContentItem) => x.date == d
  }

  lemma {:induction false} InsertStable(x: ContentItem, s: seq<ContentItem>, d: Option<int>)
    ensures Filter(Insert(x, s), DatedAs(d)) == Filter([x], DatedAs(d)) + Filter(s, DatedAs(d))
    decreases |s|
  {
    var p := DatedAs(d);
    if s == [] {
      assert Insert(x, s) == [x];
    } else if Newer(s[0], x) {
      var fh, fx, ft := Filter([s[0]], p), Filter([x], p), Filter(s[1..], p);
      InsertStable(x, s[1..], d);
      FilterInsertSkipping(x, s, p);
      FilterHeadTail(s, p);
      NewerNotBothDated(x, s[0], d);
      SwapEmpty(fh, fx, ft);
    } else {
      assert Insert(x, s) == [x] + s;
      FilterConcat([x], s, p);
    }
  }

  /** Two items of which one is strictly newer do not share a date value,
      so at most one of them passes the filter for `d`. */
  lemma NewerNotBothDated(x: ContentItem, y: ContentItem, d: Option<int>)
    requires Newer(y, x)
    ensures Filter([y], DatedAs(d)) == [] || Filter([x], DatedAs(d)) == []
  {
    if x.date == d {
      assert !DatedAs(d)(y);
    }
  }

  lemma FilterInsertSkipping(x: ContentItem, s: seq<ContentItem>, p: ContentItem -> bool)
    requires s != [] && Newer(s[0], x)
    ensures Filter(Insert(x, s), p) == Filter([s[0]], p) + Filter(Insert(x, s[1..]), p)
  {
    assert Insert(x, s) == [s[0]] + Insert(x, s[1..]);
    FilterConcat([s[0]], Insert(x, s[1..]), p);
  }

  lemma FilterHeadTail<T(!new)>(s: seq<T>, p: T -> bool)
    requires s != []
    ensures Filter(s, p) == Filter([s[0]], p) + Filter(s[1..], p)
  {
    assert s == [s[0]] + s[1..];
    FilterConcat([s[0]], s[1..], p);
  }

  lemma SwapEmpty<T>(a: seq<T>, b: seq<T>, c: seq<T>)
    requires a == [] || b == []
    ensures a + (b + c) == b + (a + c)
  {
  }

  /** Stability: the items sharing any one date value (including "no
      date") appear in the result in their input order. */
  lemma {:induction false} SortStable(s: seq<ContentItem>, d: Option<int>)
    ensures Filter(SortByDate(s), DatedAs(d)) == Filter(s, DatedAs(d))
    decreases |s|
  {
    if s != [] {
      var p, t := DatedAs(d), SortByDate(s[1..]);
      assert SortByDate(s) == Insert(s[0], t);
      SortStable(s[1..], d);
      InsertStable(s[0], t, d);
      FilterHeadTail(s, p);
    }
  }

  predicate AllDated(s: seq<ContentItem>) {
    forall i :: 0 <= i < |s| ==> s[i].date.Some?
  }

  lemma {:induction false} OrderedDatedIsDescending(r: seq<ContentItem>)
    requires DateOrdered(r) && AllDated(r)
    ensures forall i, j :: 0 <= i < j < |r| ==> r[i].date.value >= r[j].date.value
    decreases |r|
  {
    if |r| > 1 {
      var t := r[1..];
      assert DateOrdered(t) by {
        forall i | 0 < i < |t| ensures !Newer(t[i], t[i - 1]) {
          assert t[i] == r[i + 1] && t[i - 1] == r[i];
        }
      }
      OrderedDatedIsDescending(t);
      forall i, j | 0 <= i < j < |r| ensures r[i].date.value >= r[j].date.value {
        if i > 0 {
          assert r[i] == t[i - 1] && r[j] == t[j - 1];
        } else if j > 1 {
          assert r[1] == t[0] && r[j] == t[j - 1];
          assert !Newer(r[1], r[0]);
        } else {
          assert !Newer(r[1], r[0]);
        }
      }
    }
  }

  /** Every item dated, and dates non-increasing across the sequence. */
  predicate Descending(r: seq<ContentItem>) {
    AllDated(r) && forall i, j :: 0 <= i < j < |r| ==> r[i].date.value >= r[j].date.value
  }

  /** When every item is dated, the sort is fully descending by date. */
  lemma SortDescendingWhenAllDated(s: seq<ContentItem>)
    requires AllDated(s)
    ensures Descending(SortByDate(s))
  {
    var r := SortByDate(s);
    SortKeepsMembers(s);
    assert AllDated(r) by {
      forall i | 0 <= i < |r| ensures r[i].date.Some? {
        assert r[i] in s;
      }
    }
    OrderedDatedIsDescending(r);
  }
}
