/** The client-side repository (`src/lib/content-client.ts`): every query
    takes the pre-loaded `data` array.  Only the returned value of
    `getAllContent` is modelled, not its in-place reordering of `data`. */
module ContentClient {
  import opened Options
  import opened Seqs
  import opened Content
  import opened DateSort
  import opened Queries

  /** `getAllContent`: a permutation of `data`, newest first. */
  function GetAllContent(data: seq<ContentItem>): (r: seq<ContentItem>)
    ensures |r| == |data| && multiset(r) == multiset(data)
    ensures DateOrdered(r)
    ensures AllDated(data) ==> Descending(r)
  {
    assert AllDated(data) ==> Descending(SortByDate(data)) by {
      if AllDated(data) {
        SortDescendingWhenAllDated(data);
      }
    }
    SortByDate(data)
  }

  /** Stability of `getAllContent`: items sharing a date value keep their
      relative order from `data`. */
  lemma GetAllContentStable(data: seq<ContentItem>, d: Option<int>)
    ensures Filter(GetAllContent(data), DatedAs(d)) == Filter(data, DatedAs(d))
  {
    SortStable(data, d);
  }

  /** `getContentByType`: exactly the items whose `type` is `k`, in input
      order. */
  function GetContentByType(data: seq<ContentItem>, k: Kind): (r: seq<ContentItem>)
    ensures forall i :: 0 <= i < |r| ==> r[i].kind == Some(k)
    ensures forall x :: x in r <==> x in data && x.kind == Some(k)
    ensures forall x :: multiset(r)[x] == if x.kind == Some(k) then multiset(data)[x] else 0
    ensures IsSubseq(r, data)
  {
    Filter(data, (x: ContentItem) => OfKind(x, k))
  }

  /** `getContentBySlug`: the first item of `data` with kind `k` and the
      slug, or nothing. */
  function GetContentBySlug(data: seq<ContentItem>, k: Kind, slug: string): (r: Option<ContentItem>)
    ensures r.Some? ==> r.value.slug == slug && r.value.kind == Some(k) && r.value in data
    ensures r.Some? ==> exists i :: 0 <= i < |data| && data[i] == r.value &&
                          forall j :: 0 <= j < i ==> !(data[j].kind == Some(k) && data[j].slug == slug)
    ensures r.None? <==> forall x :: x in data ==> !(x.kind == Some(k) && x.slug == slug)
  {
    FindInFilteredFirst(data, (x: ContentItem) => OfKind(x, k), (x: ContentItem) => x.slug == slug);
    FindSlug(GetContentByType(data, k), slug)
  }

  /** `getPublishedContent`: the published items of kind `k`, a subsequence
      of `getContentByType`. */
  function GetPublishedContent(data: seq<ContentItem>, k: Kind): (r: seq<ContentItem>)
    ensures forall x :: x in r <==> x in data && x.kind == Some(k) && x.published
    ensures IsSubseq(r, GetContentByType(data, k))
    ensures forall x: ContentItem :: x.published ==> multiset(r)[x] == multiset(GetContentByType(data, k))[x]
  {
    PublishedOf(GetContentByType(data, k))
  }

  /** `getFeaturedContent`: the published items in input order, cut to the
      first `limit` when `limit` is truthy. */
  function GetFeaturedContent(data: seq<ContentItem>, limit: Option<int>): (r: seq<ContentItem>)
    ensures forall x :: x in r ==> x in data && x.published
    ensures |r| <= |PublishedOf(data)| && r == PublishedOf(data)[..|r|]
    ensures limit.None? || limit == Some(0) ==> r == PublishedOf(data)
    ensures limit.Some? && limit.value > 0 ==> |r| == Min(limit.value, |PublishedOf(data)|)
    ensures limit.Some? && limit.value < 0 ==> |r| == Max(0, |PublishedOf(data)| + limit.value)
  {
    Featured(data, limit)
  }

  /** `getContentByTag`: exactly the published items carrying the tag, in
      input order. */
  function GetContentByTag(data: seq<ContentItem>, tag: string): (r: seq<ContentItem>)
    ensures forall x :: x in r <==> x in data && x.published && HasTag(x, tag)
    ensures forall x :: multiset(r)[x] == if x.published && HasTag(x, tag) then multiset(data)[x] else 0
    ensures IsSubseq(r, data)
  {
    ByTag(data, tag)
  }

  /** `getAllTags`: strictly increasing, and a string is in it exactly when
      some item (published or not) carries it. */
  function GetAllTags(data: seq<ContentItem>): (r: seq<string>)
    ensures StrictlySorted(r)
    ensures forall t :: t in r <==> exists x :: x in data && HasTag(x, t)
  {
    TagSetIsTagsOfItems(data);
    AllTags(data)
  }

  /** `getRecentContent`: at most `limit` (default 5) published items of
      `data`, newest first. */
  function GetRecentContent(data: seq<ContentItem>, limit: Option<int>): (r: seq<ContentItem>)
    ensures forall x :: x in r ==> x in data && x.published
    ensures DateOrdered(r)
    ensures |r| <= |PublishedOf(data)| && r == SortByDate(PublishedOf(data))[..|r|]
    ensures var n := limit.GetOr(DefaultRecentLimit);
            0 <= n ==> |r| == Min(n, |PublishedOf(data)|)
    ensures var n := limit.GetOr(DefaultRecentLimit);
            n < 0 ==> |r| == Max(0, |PublishedOf(data)| + n)
  {
    Recent(data, limit)
  }

  /** Five published and two unpublished items, limit 3: three published
      items, newest first. */
  lemma RecentThreeOfFivePublished(data: seq<ContentItem>)
    requires |PublishedOf(data)| == 5 && |data| == 7
    ensures var r := GetRecentContent(data, Some(3));
            |r| == 3 && r == SortByDate(PublishedOf(data))[..3] && DateOrdered(r) && forall x :: x in r ==> x.published
  {
  }
}
