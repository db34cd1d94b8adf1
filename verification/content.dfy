/** The single entity of the content core: one document of one kind. */
module Content {
  import opened Options

  /** The five content directories, in the fixed order the repositories
      enumerate them. */
  datatype Kind = Thoughts | Blog | Projects | Talks | Now

  const AllKinds: seq<Kind> := [Thoughts, Blog, Projects, Talks, Now]

  /** A document.  `date` is an abstract timestamp: `None` stands for a
      missing, empty or unparseable date, which the date comparator treats
      as equal to everything.  `kind` is the record's `type` field, which
      client-side data may lack.  `published` is the truthiness of the
      field (absent counts as false).  Kind-specific string fields
      (`liveUrl`, `githubUrl`, `event`, `location`, `slidesUrl`, `videoUrl`,
      `lastUpdated`) are carried unchanged in `extra`. */
  datatype ContentItem = ContentItem(
    slug: string,
    kind: Option<Kind>,
    title: Option<string>,
    description: Option<string>,
    date: Option<int>,
    tags: Option<seq<string>>,
    published: bool,
    content: string,
    readingTime: Option<string>,
    category: Option<string>,
    techStack: Option<seq<string>>,
    extra: map<string, string>)

  predicate IsPublished(x: ContentItem) { x.published }

  /** `item.tags?.includes(tag)`. */
  predicate HasTag(x: ContentItem, tag: string) {
    x.tags.Some? && tag in x.tags.value
  }

  predicate OfKind(x: ContentItem, k: Kind) { x.kind == Some(k) }

  /** The items of every kind, concatenated in `AllKinds` order. */
  function Gather(ks: seq<Kind>, byKind: Kind -> seq<ContentItem>): seq<ContentItem> {
    if ks == [] then [] else byKind(ks[0]) + Gather(ks[1..], byKind)
  }

  /** Pushing each kind's items in turn: thoughts, blog, projects, talks,
      now. */
  function GatherKinds(byKind: Kind -> seq<ContentItem>): (r: seq<ContentItem>)
    ensures r == byKind(Thoughts) + byKind(Blog) + byKind(Projects) + byKind(Talks) + byKind(Now)
  {
    Gather(AllKinds, byKind)
  }
}
