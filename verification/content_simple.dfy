/** The build-time repository (`src/lib/content-simple.ts`): the same
    query family over a fixed in-memory data set.  Dates are written as
    yyyymmdd integers, which order like the calendar dates they stand for.
    The mock records carry no `type` field. */
module ContentSimple {
  import opened Options
  import opened Seqs
  import opened Text
  import opened Content
  import opened DateSort
  import opened Queries

  const FirstThought := ContentItem(
    slug := "first-thought",
    kind := None,
    title := Some("On the Nature of Code"),
    description := Some("Reflecting on what makes code beautiful and maintainable."),
    date := Some(20240110),
    tags := Some(["philosophy", "coding"]),
    published := true,
    content := "Code is poetry. It should flow naturally, tell a story, and be understandable by humans, not just machines. When we write code, we are crafting instructions that will be read and modified by future developers, including our future selves.",
    readingTime := Some("2 min read"),
    category := None,
    techStack := None,
    extra := map[])

  const ScalableWebApps := ContentItem(
    slug := "building-scalable-web-applications",
    kind := None,
    title := Some("Building Scalable Web Applications with Next.js"),
    description := Some("A comprehensive guide to building scalable web applications using Next.js and modern development practices."),
    date := Some(20240115),
    tags := Some(["Next.js", "React", "Performance"]),
    published := true,
    content := "Next.js has revolutionized how we build React applications. In this post, we explore the key features that make Next.js perfect for scalable applications.",
    readingTime := Some("5 min read"),
    category := Some("Web Development"),
    techStack := None,
    extra := map[])

  const PortfolioWebsite := ContentItem(
    slug := "portfolio-website",
    kind := None,
    title := Some("Personal Portfolio Website"),
    description := Some("A modern portfolio website built with Next.js and Tailwind CSS."),
    date := Some(20240101),
    tags := Some(["Next.js", "Tailwind CSS", "TypeScript"]),
    published := true,
    content := "This portfolio website showcases my work and thoughts on software development.",
    readingTime := Some("3 min read"),
    category := None,
    techStack := Some(["Next.js", "Tailwind CSS", "TypeScript"]),
    extra := map["liveUrl" := "https://example.com",
                 "githubUrl" := "https://github.com/twilighty-abhi/portfolio"])

  /** The mock record, one list per kind. */
  function MockData(k: Kind): seq<ContentItem> {
    match k
    case Thoughts => [FirstThought]
    case Blog => [ScalableWebApps]
    case Projects => [PortfolioWebsite]
    case Talks => []
    case Now => []
  }

  /** `getContentByType`: the mock list for `k`; talks and now have none,
      and every mock item is published. */
  function GetContentByType(k: Kind): (r: seq<ContentItem>)
    ensures r == [] <==> k == Talks || k == Now
    ensures |r| <= 1
    ensures forall x :: x in r ==> x.published
  {
    MockData(k)
  }

  /** `getAllContent`: the kinds' lists concatenated in declaration order,
      not re-sorted. */
  function GetAllContent(): (r: seq<ContentItem>)
    ensures r == GetContentByType(Thoughts) + GetContentByType(Blog) + GetContentByType(Projects)
                 + GetContentByType(Talks) + GetContentByType(Now)
  {
    GatherKinds(GetContentByType)
  }

  /** The mock content, in order: the thought, the blog post, the project. */
  lemma MockContentInOrder()
    ensures GetAllContent() == [FirstThought, ScalableWebApps, PortfolioWebsite]
  {
  }

  /** `getContentBySlug`: the first item of kind `k` with the slug, or
      nothing. */
  function GetContentBySlug(k: Kind, slug: string): (r: Option<ContentItem>)
    ensures r.Some? ==> r.value.slug == slug && r.value in GetContentByType(k)
    ensures r.Some? ==> GetContentByType(k) == [r.value]
    ensures r.None? <==> forall x :: x in GetContentByType(k) ==> x.slug != slug
  {
    FindSlug(GetContentByType(k), slug)
  }

  /** The blog post is found by its slug; nothing is ever found among the
      talks. */
  lemma SlugLookupExamples(slug: string)
    ensures GetContentBySlug(Blog, "building-scalable-web-applications") == Some(ScalableWebApps)
    ensures GetContentBySlug(Talks, slug) == None
    ensures GetContentBySlug(Blog, "first-thought") == None
  {
    FindUnfold([ScalableWebApps], (x: ContentItem) => x.slug == "building-scalable-web-applications");
  }

  /** `getPublishedContent`: the published items of `getContentByType(k)`,
      in order. */
  function GetPublishedContent(k: Kind): (r: seq<ContentItem>)
    ensures forall x :: x in r <==> x in GetContentByType(k) && x.published
    ensures forall x :: multiset(r)[x] == if x.published then multiset(GetContentByType(k))[x] else 0
    ensures IsSubseq(r, GetContentByType(k))
  {
    PublishedOf(GetContentByType(k))
  }

  /** `getFeaturedContent`: published items of `getAllContent`, cut to
      `limit` when it is truthy. */
  function GetFeaturedContent(limit: Option<int>): (r: seq<ContentItem>)
    ensures forall x :: x in r ==> x in GetAllContent() && x.published
    ensures var p := PublishedOf(GetAllContent());
            |r| <= |p| && r == p[..|r|]
    ensures limit.None? || limit == Some(0) ==> r == PublishedOf(GetAllContent())
    ensures var p := PublishedOf(GetAllContent());
            limit.Some? && limit.value > 0 ==> |r| == Min(limit.value, |p|)
    ensures var p := PublishedOf(GetAllContent());
            limit.Some? && limit.value < 0 ==> |r| == Max(0, |p| + limit.value)
  {
    Featured(GetAllContent(), limit)
  }

  /** `getContentByTag`: published items whose tags include `tag` exactly. */
  function GetContentByTag(tag: string): (r: seq<ContentItem>)
    ensures forall x :: x in r <==> x in GetAllContent() && x.published && HasTag(x, tag)
    ensures forall x :: multiset(r)[x] == if x.published && HasTag(x, tag) then multiset(GetAllContent())[x] else 0
    ensures IsSubseq(r, GetAllContent())
  {
    ByTag(GetAllContent(), tag)
  }

  /** "Next.js" finds the blog post and the project but not the thought. */
  lemma TagMatchFindsExactTag()
    ensures ScalableWebApps in GetContentByTag("Next.js") && PortfolioWebsite in GetContentByTag("Next.js")
    ensures FirstThought !in GetContentByTag("Next.js")
  {
    assert HasTag(ScalableWebApps, "Next.js") && HasTag(PortfolioWebsite, "Next.js");
    assert !HasTag(FirstThought, "Next.js");
  }

  /** Tag matching is case-sensitive: no mock tag starts with a lower-case
      "n", so "next.js" finds nothing. */
  lemma TagMatchIsCaseSensitive()
    ensures GetContentByTag("next.js") == []
  {
    var all := GetAllContent();
    assert forall x, t :: x in all && HasTag(x, t) ==> t != [] && t[0] != 'n';
    assert forall x :: x in all ==> !HasTag(x, "next.js");
  }

  /** `getAllTags`: sorted and duplicate-free, with exactly the tags of the
      mock items. */
  function GetAllTags(): (r: seq<string>)
    ensures StrictlySorted(r)
    ensures forall t :: t in r <==> exists x :: x in GetAllContent() && HasTag(x, t)
  {
    var all := GetAllContent();
    TagSetIsTagsOfItems(all);
    AllTags(all)
  }

  /** "Next.js" is carried by two items and listed once. */
  lemma NextJsListedOnce()
    ensures multiset(GetAllTags())["Next.js"] == 1
  {
    assert HasTag(ScalableWebApps, "Next.js");
    StrictlySortedNoDuplicates(GetAllTags(), "Next.js");
  }

  /** `getRecentContent`: at most `limit` (default 5) published items,
      newest first: a prefix of blog post, thought, project. */
  function GetRecentContent(limit: Option<int>): (r: seq<ContentItem>)
    ensures forall x :: x in r ==> x in GetAllContent() && x.published
    ensures DateOrdered(r)
    ensures |r| <= 3 && r == [ScalableWebApps, FirstThought, PortfolioWebsite][..|r|]
    ensures var n := limit.GetOr(DefaultRecentLimit);
            0 <= n ==> |r| == Min(n, 3)
    ensures var n := limit.GetOr(DefaultRecentLimit);
            n < 0 ==> |r| == Max(0, 3 + n)
  {
    var all := GetAllContent();
    assert PublishedOf(all) == all by { MockAllPublished(); }
    assert SortByDate(all) == [ScalableWebApps, FirstThought, PortfolioWebsite] by { MockSortedByDate(); }
    Recent(all, limit)
  }

  /** With the default limit all three items come back, newest first. */
  lemma RecentDefaultOrder()
    ensures GetRecentContent(None) == [ScalableWebApps, FirstThought, PortfolioWebsite]
  {
    MockAllPublished();
    MockSortedByDate();
    RecentWithinLimit(GetAllContent(), None);
  }

  lemma MockAllPublished()
    ensures PublishedOf(GetAllContent()) == GetAllContent()
  {
    AllPublishedKept(GetAllContent());
  }

  lemma MockSortedByDate()
    ensures SortByDate(GetAllContent()) == [ScalableWebApps, FirstThought, PortfolioWebsite]
  {
    MockContentInOrder();
    SortMiddleNewest(FirstThought, ScalableWebApps, PortfolioWebsite);
  }

  lemma {:induction false} AllPublishedKept(s: seq<ContentItem>)
    requires forall x :: x in s ==> x.published
    ensures PublishedOf(s) == s
    decreases |s|
  {
    if s != [] {
      AllPublishedKept(s[1..]);
      assert s == [s[0]] + s[1..];
    }
  }

  /** Sorting three dated items where the middle one is newest and the
      first is newer than the last. */
  lemma SortMiddleNewest(a: ContentItem, b: ContentItem, c: ContentItem)
    requires a.date.Some? && b.date.Some? && c.date.Some?
    requires b.date.value > a.date.value > c.date.value
    ensures SortByDate([a, b, c]) == [b, a, c]
  {
    assert [a, b, c][1..] == [b, c] && [b, c][1..] == [c] && [c][1..] == [];
    assert SortByDate([c]) == [c];
    assert SortByDate([b, c]) == Insert(b, [c]) == [b, c];
    assert Insert(a, [c]) == [a, c];
    assert Insert(a, [b, c]) == [b] + Insert(a, [c]);
  }
}
