/** The query family every repository variant offers, written once over
    the sequence of items a variant queries: publication filter, featured
    slice, tag filter, tag index, recency and slug lookup. */
module Queries {
  import opened Options
  import opened Seqs
  import opened Text
  import opened Content
  import opened DateSort

  /** `getRecentContent`'s default `limit`. */
  const DefaultRecentLimit: int := 5

  /** `filter(item => item.published)`. */
  function PublishedOf(s: seq<ContentItem>): (r: seq<ContentItem>)
    ensures forall i :: 0 <= i < |r| ==> r[i].published
    ensures forall x :: x in r <==> x in s && x.published
    ensures forall x :: multiset(r)[x] == if x.published then multiset(s)[x] else 0
    ensures IsSubseq(r, s)
  {
    Filter(s, IsPublished)
  }

  /** `getFeaturedContent`: the published items, cut to the first `limit`
      when `limit` is truthy (present and non-zero). */
  function Featured(s: seq<ContentItem>, limit: Option<int>): (r: seq<ContentItem>)
    ensures forall x :: x in r ==> x in s && x.published
    ensures |r| <= |PublishedOf(s)| && r == PublishedOf(s)[..|r|]
    ensures limit.None? || limit == Some(0) ==> r == PublishedOf(s)
    ensures limit.Some? && limit.value > 0 ==> |r| == Min(limit.value, |PublishedOf(s)|)
    ensures limit.Some? && limit.value < 0 ==> |r| == Max(0, |PublishedOf(s)| + limit.value)
  {
    var all := PublishedOf(s);
    PrefixMembers(all, SliceLength(|all|, limit.GetOr(0)));
    if limit.None? || limit.value == 0 then all else Slice(all, limit.value)
  }

  /** `filter(item => item.published && item.tags?.includes(tag))`. */
  function ByTag(s: seq<ContentItem>, tag: string): (r: seq<ContentItem>)
    ensures forall i :: 0 <= i < |r| ==> r[i].published && HasTag(r[i], tag)
    ensures forall x :: x in r <==> x in s && x.published && HasTag(x, tag)
    ensures forall x :: multiset(r)[x] == if x.published && HasTag(x, tag) then multiset(s)[x] else 0
    ensures IsSubseq(r, s)
  {
    Filter(s, (x: ContentItem) => x.published && HasTag(x, tag))
  }

  // ------------------------------------------------------------- tags

  function TagsOf(x: ContentItem): seq<string> {
    if x.tags.Some? then x.tags.value else []
  }

  /** Every tag of every item, regardless of publication. */
  function TagSet(s: seq<ContentItem>): set<string> {
    if s == [] then {} else (set t | t in TagsOf(s[0])) + TagSet(s[1..])
  }

  lemma {:induction false} TagSetMembers(s: seq<ContentItem>, t: string)
    ensures t in TagSet(s) <==> exists x :: x in s && HasTag(x, t)
    decreases |s|
  {
    if s != [] {
      TagSetMembers(s[1..], t);
      if t in TagsOf(s[0]) {
        assert HasTag(s[0], t);
      } else if t in TagSet(s[1..]) {
        var x :| x in s[1..] && HasTag(x, t);
        assert x in s;
      } else {
        assert t !in TagSet(s);
        forall x | x in s ensures !HasTag(x, t) {
          if x != s[0] {
            assert x in s[1..];
          }
        }
      }
    }
  }

  /** Strictly increasing in code-point order: sorted and duplicate-free. */
  predicate StrictlySorted(s: seq<string>) {
    forall i, j :: 0 <= i < j < |s| ==> StringLess(s[i], s[j])
  }

  function InsertTag(acc: seq<string>, t: string): (r: seq<string>)
    requires StrictlySorted(acc)
    ensures StrictlySorted(r)
    ensures forall u :: u in r <==> u in acc || u == t
  {
    if acc == [] then [t]
    else if t == acc[0] then acc
    else if StringLess(t, acc[0]) then
      assert forall j :: 0 <= j < |acc| ==> StringLess(t, acc[j]) by {
        forall j | 0 < j < |acc| ensures StringLess(t, acc[j]) {
          StringLessTransitive(t, acc[0], acc[j]);
        }
      }
      [t] + acc
    else
      StringLessTotal(t, acc[0]);
      var rest := InsertTag(acc[1..], t);
      assert forall u :: u in rest ==> StringLess(acc[0], u) by {
        forall u | u in rest ensures StringLess(acc[0], u) {
          if u != t {
            var k :| 0 <= k < |acc[1..]| && acc[1..][k] == u;
            assert acc[k + 1] == u;
          }
        }
      }
      [acc[0]] + rest
  }

  function AddTags(acc: seq<string>, ts: seq<string>): (r: seq<string>)
    requires StrictlySorted(acc)
    ensures StrictlySorted(r)
    ensures forall u :: u in r <==> u in acc || u in ts
    decreases |ts|
  {
    if ts == [] then acc else AddTags(InsertTag(acc, ts[0]), ts[1..])
  }

  function CollectTags(acc: seq<string>, s: seq<ContentItem>): (r: seq<string>)
    requires StrictlySorted(acc)
    ensures StrictlySorted(r)
    ensures forall u :: u in r <==> u in acc || u in TagSet(s)
    decreases |s|
  {
    if s == [] then acc else CollectTags(AddTags(acc, TagsOf(s[0])), s[1..])
  }

  /** `getAllTags`: the set of all tags, rendered in sorted order. */
  lemma TagSetIsTagsOfItems(s: seq<ContentItem>)
    ensures forall t :: t in TagSet(s) <==> exists x :: x in s && HasTag(x, t)
  {
    forall t ensures t in TagSet(s) <==> exists x :: x in s && HasTag(x, t) {
      TagSetMembers(s, t);
    }
  }

  function AllTags(s: seq<ContentItem>): (r: seq<string>)
    ensures StrictlySorted(r)
    ensures forall u :: u in r <==> u in TagSet(s)
  {
    CollectTags([], s)
  }

  /** The head of a strictly sorted sequence precedes every other member. */
  lemma HeadIsLeast(a: seq<string>, u: string)
    requires StrictlySorted(a) && u in a
    ensures u == a[0] || StringLess(a[0], u)
  {
  }

  lemma TailMembers(a: seq<string>, b: seq<string>, u: string)
    requires StrictlySorted(a) && a != [] && b != [] && a[0] == b[0]
    requires forall v :: v in a <==> v in b
    requires u in a[1..]
    ensures u in b[1..]
  {
    var k :| 0 <= k < |a| - 1 && a[1..][k] == u;
    assert a[k + 1] == u && StringLess(a[0], u);
    StringLessIrreflexive(u);
    assert u in b;
    var m :| 0 <= m < |b| && b[m] == u;
    assert m != 0;
    assert b[1..][m - 1] == u;
  }

  /** A strictly sorted sequence is determined by its members: whichever
      order the tags were gathered in, the result is the same. */
  lemma {:induction false} StrictlySortedUnique(a: seq<string>, b: seq<string>)
    requires StrictlySorted(a) && StrictlySorted(b)
    requires forall u :: u in a <==> u in b
    ensures a == b
    decreases |a|
  {
    if a == [] {
      assert forall i :: 0 <= i < |b| ==> b[i] in b;
    } else {
      assert a[0] in b;
      assert b[0] in a;
      HeadIsLeast(a, b[0]);
      HeadIsLeast(b, a[0]);
      StringLessAsymmetric(a[0], b[0]);
      assert a[0] == b[0];
      forall u ensures u in a[1..] <==> u in b[1..] {
        if u in a[1..] {
          TailMembers(a, b, u);
        }
        if u in b[1..] {
          TailMembers(b, a, u);
        }
      }
      StrictlySortedUnique(a[1..], b[1..]);
      assert a == [a[0]] + a[1..] && b == [b[0]] + b[1..];
    }
  }

  /** Each tag appears in `getAllTags` exactly once. */
  lemma {:induction false} StrictlySortedNoDuplicates(a: seq<string>, u: string)
    requires StrictlySorted(a)
    ensures multiset(a)[u] == if u in a then 1 else 0
    decreases |a|
  {
    if a != [] {
      assert a == [a[0]] + a[1..];
      StrictlySortedNoDuplicates(a[1..], u);
      if u == a[0] {
        StringLessIrreflexive(u);
        assert forall k :: 0 <= k < |a| - 1 ==> a[1..][k] == a[k + 1] && StringLess(u, a[k + 1]);
      }
    }
  }

  // ---------------------------------------------------------- recency

  /** `getRecentContent`: the published items, newest first, cut to
      `limit` (5 when omitted). */
  function Recent(s: seq<ContentItem>, limit: Option<int>): (r: seq<ContentItem>)
    ensures forall x :: x in r ==> x in s && x.published
    ensures DateOrdered(r)
    ensures |r| <= |PublishedOf(s)| && r == SortByDate(PublishedOf(s))[..|r|]
    ensures var n := limit.GetOr(DefaultRecentLimit);
            0 <= n ==> |r| == Min(n, |PublishedOf(s)|)
    ensures var n := limit.GetOr(DefaultRecentLimit);
            n < 0 ==> |r| == Max(0, |PublishedOf(s)| + n)
  {
    var pub := PublishedOf(s);
    var sorted := SortByDate(pub);
    var r := Slice(sorted, limit.GetOr(DefaultRecentLimit));
    assert forall x :: x in r ==> x in s && x.published by {
      SortKeepsMembers(pub);
      PrefixMembers(sorted, |r|);
    }
    assert DateOrdered(r) by {
      PrefixOrdered(sorted, |r|);
    }
    r
  }

  /** A limit that covers every published item returns all of them. */
  lemma RecentWithinLimit(s: seq<ContentItem>, limit: Option<int>)
    requires |PublishedOf(s)| <= limit.GetOr(DefaultRecentLimit)
    ensures Recent(s, limit) == SortByDate(PublishedOf(s))
  {
    var sorted := SortByDate(PublishedOf(s));
    assert sorted[..|sorted|] == sorted;
  }

  // ------------------------------------------------------------- slug

  /** `find(item => item.slug === slug) || null`: the first item with the
      slug, or nothing when no item has it. */
  function FindSlug(s: seq<ContentItem>, slug: string): (r: Option<ContentItem>)
    ensures r.Some? ==> r.value.slug == slug && r.value in s
    ensures r.Some? ==> exists i :: 0 <= i < |s| && s[i] == r.value
                                    && forall j :: 0 <= j < i ==> s[j].slug != slug
    ensures r.None? <==> forall x :: x in s ==> x.slug != slug
  {
    Find(s, (x: ContentItem) => x.slug == slug)
  }
}
