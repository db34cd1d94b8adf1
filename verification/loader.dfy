/** `getContentFromDirectory` in its two variants, without the file system
    and the front-matter parser: a directory is given as the list of its
    files, each with the name, the parsed front matter and the body text
    the parser separated.  A missing directory is `None`. */
module Loader {
  import opened Options
  import opened Seqs
  import opened Content
  import opened DateSort
  import ReadingTime

  /** The parsed front-matter block.  A field is `Some` exactly when its
      key is present, except `date`, which is also `None` when its value
      does not parse; a present key overrides the loader's derived value
      even when its value is falsy. */
  datatype Frontmatter = Frontmatter(
    slug: Option<string>,
    kind: Option<Kind>,
    title: Option<string>,
    description: Option<string>,
    date: Option<int>,
    tags: Option<seq<string>>,
    published: Option<bool>,
    content: Option<string>,
    readingTime: Option<string>,
    category: Option<string>,
    techStack: Option<seq<string>>,
    extra: map<string, string>)

  datatype SourceFile = SourceFile(name: string, data: Frontmatter, body: string)

  /** The server loader fills in a missing reading time from the body; the
      newer loader does not. */
  datatype Variant = DerivesReadingTime | KeepsReadingTime

  /** The content store: the files of each kind's directory, or no entry
      when the directory does not exist. */
  type Store = map<Kind, seq<SourceFile>>

  function Directory(store: Store, k: Kind): Option<seq<SourceFile>> {
    if k in store then Some(store[k]) else None
  }

  predicate EndsWith(s: string, suffix: string) {
    |suffix| <= |s| && s[|s| - |suffix|..] == suffix
  }

  /** `name.endsWith('.md') || name.endsWith('.mdx')`. */
  predicate IsMarkdownName(name: string) {
    EndsWith(name, ".md") || EndsWith(name, ".mdx")
  }

  /** Either extension makes a markdown name; the match is case-sensitive
      and needs the dot. */
  lemma MarkdownNameExamples(base: string)
    ensures IsMarkdownName(base + ".md") && IsMarkdownName(base + ".mdx")
    ensures !IsMarkdownName("notes.MD") && !IsMarkdownName("md") && !IsMarkdownName("a.txt")
  {
    var md, mdx := base + ".md", base + ".mdx";
    assert md[|md| - 3..] == ".md";
    assert mdx[|mdx| - 4..] == ".mdx";
    assert "notes.MD"[7] == 'D';
    assert "a.txt"[4] == 't';
  }

  predicate IsMarkdownFile(f: SourceFile) {
    IsMarkdownName(f.name)
  }

  /** `name.replace(/\.mdx?$/, '')`: removes one trailing ".md" or ".mdx". */
  function StripExtension(name: string): (r: string)
    ensures EndsWith(name, ".mdx") ==> r + ".mdx" == name
    ensures EndsWith(name, ".md") ==> r + ".md" == name
    ensures !IsMarkdownName(name) ==> r == name
  {
    if EndsWith(name, ".mdx") then
      assert name[|name| - 1] == ".mdx"[3];
      name[..|name| - 4]
    else if EndsWith(name, ".md") then name[..|name| - 3]
    else name
  }

  /** Stripping undoes appending either extension. */
  lemma StripExtensionRoundTrip(base: string)
    ensures StripExtension(base + ".md") == base
    ensures StripExtension(base + ".mdx") == base
  {
    var md, mdx := base + ".md", base + ".mdx";
    assert md[|md| - 3..] == ".md";
    assert mdx[|mdx| - 4..] == ".mdx";
    assert md[..|md| - 3] == base;
    assert mdx[..|mdx| - 4] == base;
    assert md[|md| - 1] == 'd';
  }

  /** "a.mdx" gives slug "a"; "a.md.md" loses only its last extension. */
  lemma StripExtensionExamples()
    ensures StripExtension("a.mdx") == "a"
    ensures StripExtension("a.md.md") == "a.md"
    ensures StripExtension("notes.txt") == "notes.txt"
  {
    StripExtensionRoundTrip("a");
    StripExtensionRoundTrip("a.md");
    assert "a.md" + ".md" == "a.md.md";
    assert !IsMarkdownName("notes.txt") by {
      assert "notes.txt"[8] == 't';
    }
  }

  /** The record the loader builds before spreading the front matter:
      `{ slug, type, content, readingTime }`, where the server variant's
      reading time is the front matter's when truthy, else computed. */
  function Derived(f: SourceFile, k: Kind, v: Variant): ContentItem {
    ContentItem(
      slug := StripExtension(f.name),
      kind := Some(k),
      title := None,
      description := None,
      date := None,
      tags := None,
      published := false,
      content := f.body,
      readingTime := DerivedReadingTime(f, v),
      category := None,
      techStack := None,
      extra := map[])
  }

  /** `data.readingTime || calculateReadingTime(content)` on the server;
      nothing on the newer loader. */
  function DerivedReadingTime(f: SourceFile, v: Variant): (r: Option<string>)
    ensures r.None? <==> v == KeepsReadingTime
    ensures r.Some? ==> r.value != ""
    ensures r.Some? ==> r == f.data.readingTime || r.value == ReadingTime.CalculateReadingTime(f.body)
    ensures v == DerivesReadingTime && f.data.readingTime.Some? && f.data.readingTime.value != "" ==>
              r == f.data.readingTime
    ensures v == DerivesReadingTime && f.data.readingTime in {None, Some("")} ==>
              r == Some(ReadingTime.CalculateReadingTime(f.body))
  {
    if v == KeepsReadingTime then None
    else if f.data.readingTime.Some? && f.data.readingTime.value != "" then f.data.readingTime
    else Some(ReadingTime.CalculateReadingTime(f.body))
  }

  function Override<T>(key: Option<T>, derived: Option<T>): Option<T> {
    if key.Some? then key else derived
  }

  /** `{ ...base, ...data }`: every key present in `data` wins. */
  function Spread(base: ContentItem, data: Frontmatter): ContentItem {
    ContentItem(
      slug := data.slug.GetOr(base.slug),
      kind := Override(data.kind, base.kind),
      title := Override(data.title, base.title),
      description := Override(data.description, base.description),
      date := Override(data.date, base.date),
      tags := Override(data.tags, base.tags),
      published := data.published.GetOr(base.published),
      content := data.content.GetOr(base.content),
      readingTime := Override(data.readingTime, base.readingTime),
      category := Override(data.category, base.category),
      techStack := Override(data.techStack, base.techStack),
      extra := base.extra + data.extra)
  }

  /** One file's item.  The front matter overrides every derived field;
      the slug is otherwise the file name without its extension, the kind
      the directory's, the content the body; a missing `published` is
      false.  The server variant computes a reading time from the body
      exactly when the front matter has no `readingTime` key; the newer
      variant never computes one. */
  function ToItem(f: SourceFile, k: Kind, v: Variant): (x: ContentItem)
    ensures x.slug == (if f.data.slug.Some? then f.data.slug.value else StripExtension(f.name))
    ensures x.kind == (if f.data.kind.Some? then f.data.kind else Some(k))
    ensures x.content == (if f.data.content.Some? then f.data.content.value else f.body)
    ensures v == KeepsReadingTime ==> x.readingTime == f.data.readingTime
    ensures v == DerivesReadingTime && f.data.readingTime.Some? ==> x.readingTime == f.data.readingTime
    ensures v == DerivesReadingTime && f.data.readingTime.None? ==>
              x.readingTime == Some(ReadingTime.CalculateReadingTime(f.body))
    ensures x.published <==> f.data.published == Some(true)
    ensures x.title == f.data.title && x.description == f.data.description && x.date == f.data.date
    ensures x.tags == f.data.tags && x.category == f.data.category && x.techStack == f.data.techStack
    ensures x.extra == f.data.extra
  {
    var base := Derived(f, k, v);
    assert base.readingTime == DerivedReadingTime(f, v);
    assert f.data.readingTime.None? && v == DerivesReadingTime ==>
             base.readingTime == Some(ReadingTime.CalculateReadingTime(f.body));
    Spread(base, f.data)
  }

  /** Front matter with no key at all. */
  const NoKeys := Frontmatter(None, None, None, None, None, None, None, None, None, None, None, map[])

  /** Spreading front matter without keys changes nothing. */
  lemma SpreadNothing(base: ContentItem)
    ensures Spread(base, NoKeys) == base
  {
    assert base.extra + map[] == base.extra;
  }

  /** Spreading the same front matter twice is spreading it once. */
  lemma SpreadTwice(base: ContentItem, data: Frontmatter)
    ensures Spread(Spread(base, data), data) == Spread(base, data)
  {
    assert (base.extra + data.extra) + data.extra == base.extra + data.extra;
  }

  /** `.map(toItem)` over the markdown files, position by position. */
  function MapToItems(files: seq<SourceFile>, k: Kind, v: Variant): (r: seq<ContentItem>)
    ensures |r| == |files|
    ensures forall i :: 0 <= i < |r| ==> r[i] == ToItem(files[i], k, v)
  {
    if files == [] then [] else [ToItem(files[0], k, v)] + MapToItems(files[1..], k, v)
  }

  /** `fileNames.filter(isMarkdown).map(toItem)`: one item per markdown
      file, in directory order. */
  function ItemsOf(files: seq<SourceFile>, k: Kind, v: Variant): (r: seq<ContentItem>)
    ensures |r| == |Filter(files, IsMarkdownFile)|
    ensures forall i :: 0 <= i < |r| ==> r[i] == ToItem(Filter(files, IsMarkdownFile)[i], k, v)
  {
    MapToItems(Filter(files, IsMarkdownFile), k, v)
  }

  /** `getContentFromDirectory`: nothing for a missing directory, otherwise
      one item per markdown file, reordered newest first. */
  function LoadDirectory(dir: Option<seq<SourceFile>>, k: Kind, v: Variant): (r: seq<ContentItem>)
    ensures dir.None? ==> r == []
    ensures dir.Some? ==> multiset(r) == multiset(ItemsOf(dir.value, k, v))
    ensures dir.Some? ==> |r| == |Filter(dir.value, IsMarkdownFile)|
    ensures DateOrdered(r)
  {
    match dir
    case None => []
    case Some(files) => SortByDate(ItemsOf(files, k, v))
  }

  /** Every loaded item comes from a markdown file of the directory. */
  lemma LoadedFromMarkdown(files: seq<SourceFile>, k: Kind, v: Variant, x: ContentItem)
    requires x in LoadDirectory(Some(files), k, v)
    ensures exists f :: f in files && IsMarkdownFile(f) && x == ToItem(f, k, v)
  {
    var items := ItemsOf(files, k, v);
    assert x in multiset(items);
    var i :| 0 <= i < |items| && items[i] == x;
    var f := Filter(files, IsMarkdownFile)[i];
    assert f in Filter(files, IsMarkdownFile);
  }

  /** Loading is stable: files sharing a date value keep directory order. */
  lemma LoadDirectoryStable(files: seq<SourceFile>, k: Kind, v: Variant, d: Option<int>)
    ensures Filter(LoadDirectory(Some(files), k, v), DatedAs(d)) == Filter(ItemsOf(files, k, v), DatedAs(d))
  {
    SortStable(ItemsOf(files, k, v), d);
  }

  /** A directory holding no markdown file loads as empty, just like a
      missing one. */
  lemma NoMarkdownLoadsNothing(files: seq<SourceFile>, k: Kind, v: Variant)
    requires forall f :: f in files ==> !IsMarkdownFile(f)
    ensures LoadDirectory(Some(files), k, v) == []
  {
    var md := Filter(files, IsMarkdownFile);
    assert forall i :: 0 <= i < |md| ==> md[i] in md;
  }
}
