/** The newer file-backed repository (`src/lib/content-new.ts`): the
    loader keeps the front matter's reading time as is, and the whole
    query family runs over the loaded directories. */
module ContentNew {
  import opened Options
  import opened Seqs
  import opened Content
  import opened DateSort
  import opened Queries
  import opened Loader

  /** `getContentByType`: the kind's directory, loaded; the reading time is
      only ever the front matter's. */
  function GetContentByType(store: Store, k: Kind): (r: seq<ContentItem>)
    ensures k !in store ==> r == []
    ensures k in store ==> multiset(r) == multiset(ItemsOf(store[k], k, KeepsReadingTime))
    ensures k in store ==> |r| == |Filter(store[k], IsMarkdownFile)|
    ensures DateOrdered(r)
  {
    LoadDirectory(Directory(store, k), k, KeepsReadingTime)
  }

  /** Each loaded item is tagged with the directory's kind unless its front
      matter names another, and carries no computed reading time. */
  lemma LoadedItemsKeepFrontmatter(store: Store, k: Kind, x: ContentItem)
    requires x in GetContentByType(store, k)
    ensures exists f :: f in store[k] && IsMarkdownFile(f) && x.readingTime == f.data.readingTime
              && x.kind == (if f.data.kind.Some? then f.data.kind else Some(k))
  {
    LoadedFromMarkdown(store[k], k, KeepsReadingTime, x);
  }

  /** `getAllContent`: the union of the five kinds' items, newest first. */
  function GetAllContent(store: Store): (r: seq<ContentItem>)
    ensures multiset(r) == multiset(GetContentByType(store, Thoughts)) + multiset(GetContentByType(store, Blog))
                           + multiset(GetContentByType(store, Projects)) + multiset(GetContentByType(store, Talks))
                           + multiset(GetContentByType(store, Now))
    ensures DateOrdered(r)
  {
    SortByDate(GatherKinds((k: Kind) => GetContentByType(store, k)))
  }

  /** Stability of `getAllContent`. */
  lemma GetAllContentStable(store: Store, d: Option<int>)
    ensures Filter(GetAllContent(store), DatedAs(d))
         == Filter(GatherKinds((k: Kind) => GetContentByType(store, k)), DatedAs(d))
  {
    SortStable(GatherKinds((k: Kind) => GetContentByType(store, k)), d);
  }

  /** `getContentBySlug`: the first item of the kind's loaded list with the
      slug, or nothing. */
  function GetContentBySlug(store: Store, k: Kind, slug: string): (r: Option<ContentItem>)
    ensures r.Some? ==> r.value.slug == slug && r.value in GetContentByType(store, k)
    ensures r.Some? ==> exists i :: 0 <= i < |GetContentByType(store, k)| && GetContentByType(store, k)[i] == r.value
                                    && forall j :: 0 <= j < i ==> GetContentByType(store, k)[j].slug != slug
    ensures r.None? <==> forall x :: x in GetContentByType(store, k) ==> x.slug != slug
  {
    FindSlug(GetContentByType(store, k), slug)
  }

  /** `getContentItem`, the backward-compatible alias: always the same
      answer as `getContentBySlug`. */
  function GetContentItem(store: Store, k: Kind, slug: string): (r: Option<ContentItem>)
    ensures r == GetContentBySlug(store, k, slug)
    ensures r.Some? ==> r.value.slug == slug
  {
    GetContentBySlug(store, k, slug)
  }

  /** `getPublishedContent`: the published items of the kind, in loaded
      order. */
  function GetPublishedContent(store: Store, k: Kind): (r: seq<ContentItem>)
    ensures forall x :: x in r <==> x in GetContentByType(store, k) && x.published
    ensures forall x :: multiset(r)[x] == if x.published then multiset(GetContentByType(store, k))[x] else 0
    ensures IsSubseq(r, GetContentByType(store, k))
  {
    PublishedOf(GetContentByType(store, k))
  }

  /** `getFeaturedContent`: the published items of `getAllContent`, cut to
      `limit` when it is truthy. */
  function GetFeaturedContent(store: Store, limit: Option<int>): (r: seq<ContentItem>)
    ensures forall x :: x in r ==> x in GetAllContent(store) && x.published
    ensures var p := PublishedOf(GetAllContent(store));
            |r| <= |p| && r == p[..|r|]
    ensures limit.None? || limit == Some(0) ==> r == PublishedOf(GetAllContent(store))
    ensures var p := PublishedOf(GetAllContent(store));
            limit.Some? && limit.value > 0 ==> |r| == Min(limit.value, |p|)
    ensures var p := PublishedOf(GetAllContent(store));
            limit.Some? && limit.value < 0 ==> |r| == Max(0, |p| + limit.value)
  {
    Featured(GetAllContent(store), limit)
  }

  /** `getContentByTag`: published items of every kind carrying the tag. */
  function GetContentByTag(store: Store, tag: string): (r: seq<ContentItem>)
    ensures forall x :: x in r <==> x in GetAllContent(store) && x.published && HasTag(x, tag)
    ensures forall x :: multiset(r)[x] == if x.published && HasTag(x, tag) then multiset(GetAllContent(store))[x] else 0
    ensures IsSubseq(r, GetAllContent(store))
  {
    ByTag(GetAllContent(store), tag)
  }

  /** `getAllTags`: sorted, duplicate-free, every tag of every item. */
  function GetAllTags(store: Store): (r: seq<string>)
    ensures StrictlySorted(r)
    ensures forall t :: t in r <==> exists x :: x in GetAllContent(store) && HasTag(x, t)
  {
    var all := GetAllContent(store);
    TagSetIsTagsOfItems(all);
    AllTags(all)
  }

  /** `getRecentContent`: at most `limit` (default 5) published items,
      newest first. */
  function GetRecentContent(store: Store, limit: Option<int>): (r: seq<ContentItem>)
    ensures forall x :: x in r ==> x in GetAllContent(store) && x.published
    ensures DateOrdered(r)
    ensures |r| <= |PublishedOf(GetAllContent(store))| && r == SortByDate(PublishedOf(GetAllContent(store)))[..|r|]
    ensures var n := limit.GetOr(DefaultRecentLimit);
            0 <= n ==> |r| == Min(n, |PublishedOf(GetAllContent(store))|)
    ensures var n := limit.GetOr(DefaultRecentLimit);
            n < 0 ==> |r| == Max(0, |PublishedOf(GetAllContent(store))| + n)
  {
    Recent(GetAllContent(store), limit)
  }
}
