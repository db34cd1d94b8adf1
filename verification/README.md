# Content repository and search of portfolio-v3.0

This project models the content layer of a personal portfolio site. Posts
are markdown files with a front matter block. They are grouped into five
kinds: thoughts, blog, projects, talks and now. There are four interchangeable
repositories that answer queries about them:

- the client-side helpers work over a list that is already loaded;
- the mock repository uses three fixed items;
- the file-backed server repository derives a reading time for each file;
- the newer file-backed repository keeps the front matter's reading time as it is.

The model also covers the search index and the search overlay component. The
overlay filters by plain substring, shows at most six results, and opens and
closes on keyboard shortcuts.

Modules, following the program's structure:

- `Options`, `Seqs` and `Text` hold generic helpers:
  - an optional value;
  - filter and find;
  - the JavaScript `slice(0, end)`;
  - trimming, splitting on whitespace, lower-casing and substring search;
  - decimal rendering and code-point string order.
- `Content` holds the content item record and the five kinds.
- `DateSort` holds the newest-first comparator and the stable sort that stands for `Array.prototype.sort` with it.
- `ReadingTime` holds `calculateReadingTime`.
- `Queries` holds the query bodies shared by the repositories: published, featured, by tag, all tags, recent, and lookup by slug.
- The repositories themselves:
  - `ContentClient`, for `src/lib/content-client.ts`;
  - `ContentSimple`, for `src/lib/content-simple.ts`;
  - `ContentServer`, for `src/lib/content-server.ts`;
  - `ContentNew`, for `src/lib/content-new.ts`.
- `Loader` holds the directory loader that both file-backed repositories share. A `Variant` value selects the reading-time rule.
- `Search` and `GlobalSearch` model `src/lib/search.ts` and `src/components/global-search.tsx`.

Modelling decisions:

- **Dates.** A date is an `Option<int>`: the time stamp `new Date(date)` would give. `None` stands for a missing, empty or unparseable date. The mock items of `content-simple.ts` write their dates as yyyymmdd integers (2024-01-15 becomes 20240115), which order the same way as the calendar dates.
- **The comparator is not a consistent order.** It returns 0 whenever either date is missing. So the model fixes one stable sort and proves properties that hold for it:
  - no adjacent pair is out of order;
  - the result is a permutation of the input;
  - items with equal date values keep their relative order;
  - when every item is dated, the result is fully descending.
- **The file system is a parameter.** A `Store` maps each kind to the files in its directory. A missing key is a missing directory.
- **Front matter is a parsed record.** Each field is `Some` exactly when its key is present, except `date`, which is also `None` when its value does not parse.

Where the code's behaviour is surprising, the model follows the code:

- **Reading time on the server.** The server loader computes `data.readingTime || calculateReadingTime(content)`, then spreads the front matter over it. So any `readingTime` key present in the front matter wins, even an empty one. The computed value appears only when the key is absent (`Loader.ToItem`).
- **The search index filters nothing.** It keeps unpublished items and "now" items. Only the overlay component filters, and it does so by plain substring, not fuzzy matching.
- **Duplicate slugs.** Two files whose names differ only in `.md` versus `.mdx` both load under the same slug. A lookup returns whichever sorts first.

## Model

| member | source | states |
|---|---|---|
| Seqs.Filter | src/lib/content-client.ts:51-53 | `filter` keeps exactly the elements satisfying the predicate, in order, each as often as in the input |
| Seqs.Find | src/lib/content-client.ts:48 | `find` returns an element satisfying the predicate with none before it, and nothing exactly when no element does |
| Seqs.Slice | src/lib/content-client.ts:57 | `slice(0, end)` is a prefix of min(end, length) elements, and for a negative end that many fewer than the length, but never below zero |
| DateSort.SortByDate | src/lib/content-client.ts:34-39 | the date sort returns a permutation of its input with no adjacent pair in which the later item is strictly newer |
| DateSort.Insert | src/lib/content-client.ts:34-39 | inserting one item keeps the multiset and keeps an ordered list ordered |
| DateSort.SortStable | src/lib/content-client.ts:34-39 | items with the same date value keep their input order through the sort |
| DateSort.SortDescendingWhenAllDated | src/lib/content-client.ts:34-39 | when every item has a date, the sorted list is descending by date |
| DateSort.OrderedDatedIsDescending | src/lib/content-client.ts:34-39 | for fully dated lists, adjacent order implies order between every pair |
| DateSort.SortKeepsMembers | src/lib/content-client.ts:34-39 | sorting neither adds nor drops items |
| DateSort.PrefixOrdered | src/lib/content-client.ts:74-79 | a prefix of a date-ordered list is date-ordered, which is what slicing the sorted list keeps |
| ContentClient.GetAllContent | src/lib/content-client.ts:33-40 | `getAllContent` is a permutation of its input, date-ordered, and fully descending when every item has a date |
| ContentClient.GetAllContentStable | src/lib/content-client.ts:33-40 | items sharing a date value keep their input order |
| ContentClient.GetContentByType | src/lib/content-client.ts:42-44 | exactly the items of the kind, each as often as in the input, in input order |
| ContentClient.GetContentBySlug | src/lib/content-client.ts:46-49 | the first item of the kind with the slug; nothing exactly when no such item exists |
| ContentClient.GetPublishedContent | src/lib/content-client.ts:51-53 | exactly the published items of the kind, in order, with their multiplicity |
| ContentClient.GetFeaturedContent | src/lib/content-client.ts:55-58 | a prefix of the published items; all of them when the limit is absent or 0; min(limit, count) of them for a positive limit; for a negative limit, `slice` drops that many from the end |
| ContentClient.GetContentByTag | src/lib/content-client.ts:60-64 | exactly the published items whose tags include the tag, in order, each as often as in the input |
| ContentClient.GetAllTags | src/lib/content-client.ts:66-72 | strictly sorted, so duplicate-free, and holding exactly the tags that some item carries |
| ContentClient.GetRecentContent | src/lib/content-client.ts:74-79 | the newest published items: a prefix of the date-sorted published items, min(limit, published count) long with the limit defaulting to 5, and for a negative limit that many fewer than the count |
| ContentClient.RecentThreeOfFivePublished | src/lib/content-client.ts:74-79 | with five published items among seven, a limit of 3 gives exactly the first three of the date-sorted published items, which are published and date-ordered |
| Queries.PublishedOf | src/lib/content-client.ts:51-53 | the published filter keeps exactly the published items, in order, with their multiplicity |
| Queries.Featured | src/lib/content-client.ts:55-58 | the truthy-limit slice of the published items, including `slice`'s reading of negative limits |
| Queries.ByTag | src/lib/content-client.ts:60-64 | every result is published and tagged, and every such input item is a result as often as it occurs in the input |
| Queries.TagSetMembers | src/lib/content-client.ts:66-72 | the collected tag set holds exactly the tags some item carries |
| Queries.InsertTag | src/lib/content-client.ts:66-72 | adding one tag to a sorted duplicate-free list keeps it so and adds exactly that tag |
| Queries.AddTags | src/lib/content-client.ts:68-70 | adding one item's tags keeps the list sorted and adds exactly those tags |
| Queries.CollectTags | src/lib/content-client.ts:68-70 | adding every item's tags keeps the list sorted and adds exactly the tag set |
| Queries.AllTags | src/lib/content-client.ts:66-72 | the sorted set of tags, each once |
| Queries.StrictlySortedUnique | src/lib/content-client.ts:71 | two strictly sorted lists with the same members are equal, so the tag list is determined by the tag set |
| Queries.StrictlySortedNoDuplicates | src/lib/content-client.ts:67-71 | each tag occurs at most once in the result |
| Queries.HeadIsLeast | src/lib/content-client.ts:71 | the first element of a sorted tag list is its least |
| Queries.TailMembers | src/lib/content-client.ts:71 | sorted lists with equal members and equal heads have equal tail members |
| Queries.Recent | src/lib/content-client.ts:74-79 | a prefix of the date-sorted published items, of length min(limit, count) for a non-negative limit (default 5), following `slice` for a negative one |
| Queries.RecentWithinLimit | src/lib/content-client.ts:74-79 | when no more items are published than the limit, all of them come back sorted |
| Queries.FindSlug | src/lib/content-client.ts:48 | `find` returns the first item with the slug, and nothing exactly when none has it |
| ReadingTime.Minutes | src/lib/content-client.ts:81-86 | the minutes are the ceiling of words/200, where blank text counts as one word |
| ReadingTime.CalculateReadingTime | src/lib/content-client.ts:81-86 | the text is the minute count in decimal digits without a leading zero, followed by " min read"; the digits read back as the minutes |
| ReadingTime.BlankTextReadsInOneMinute | src/lib/content-client.ts:83-85 | blank text reads in "1 min read", because splitting "" still yields one piece |
| ReadingTime.OneWordReadsInOneMinute | src/lib/content-client.ts:81-86 | "hello" reads in "1 min read" |
| ReadingTime.FourHundredWordsReadInTwoMinutes | src/lib/content-client.ts:81-86 | any text of 400 words reads in "2 min read" |
| ReadingTime.UpTo200WordsReadInOneMinute | src/lib/content-client.ts:82-85 | any text of at most 200 words, blank text included, reads in "1 min read" |
| ReadingTime.From201To400WordsReadInTwoMinutes | src/lib/content-client.ts:82-85 | any text of 201 to 400 words reads in "2 min read" |
| ReadingTime.RepeatedWordReadsInTwoMinutes | src/lib/content-client.ts:81-86 | a word repeated 400 times reads in "2 min read" |
| ReadingTime.MinuteBoundary | src/lib/content-client.ts:82-85 | 200 words give one minute and 201 words give two |
| Text.Trim | src/lib/content-client.ts:83 | `trim` returns the middle slice without leading or trailing whitespace, empty exactly for blank text |
| Text.SplitOnWhitespace | src/lib/content-client.ts:83 | `split(/\s+/)` yields at least one piece, and no piece holds whitespace |
| Text.SplitPieces | src/lib/content-client.ts:83 | the pieces glue back to the text's non-whitespace characters in order; the first piece is empty exactly when the text is empty or starts with whitespace, the last exactly when it is empty or ends with whitespace, and no piece in between is empty; where one piece ends and the next begins is not claimed (the piece count is `SplitWordCountIsWords`'s) |
| Text.SplitWordCountIsWords | src/lib/content-client.ts:83 | the piece count after trimming is the number of words, but at least one |
| Text.TrimKeepsWords | src/lib/content-client.ts:83 | trimming keeps the word count |
| Text.NatToString | src/lib/content-client.ts:85 | the template literal renders the minutes as decimal digits without leading zeros that read back as the number |
| Text.StringLessTotal | src/lib/content-client.ts:71 | the default sort order puts any two distinct tags in order |
| Text.StringLessTransitive | src/lib/content-client.ts:71 | the default sort order is transitive |
| Text.IsBlank | src/components/global-search.tsx:56 | `!query.trim()` holds exactly when the query is all whitespace |
| Text.Lower | src/components/global-search.tsx:59-60 | `toLowerCase` keeps the length and lower-cases each character in place |
| Text.ContainsInConcat | src/components/global-search.tsx:60 | a needle found in either half of a text is found in the whole |
| Text.ContainsTransitive | src/components/global-search.tsx:60 | a text containing a part contains whatever the part contains |
| Text.ContainsLower | src/components/global-search.tsx:59-60 | an occurrence survives lower-casing both sides |
| Text.ContainsIffOccurs | src/components/global-search.tsx:60 | `includes` holds exactly when the needle occurs at some offset |
| Text.LowerIdempotent | src/components/global-search.tsx:59-60 | lower-casing twice is lower-casing once |
| ContentSimple.GetContentByType | src/lib/content-simple.ts:75-77 | each of thoughts, blog and projects has one published mock item; talks and now have none |
| ContentSimple.GetAllContent | src/lib/content-simple.ts:79-81 | the kinds' items concatenated in kind order, without sorting |
| ContentSimple.MockContentInOrder | src/lib/content-simple.ts:30-81 | all content is the thought, then the blog post, then the project |
| ContentSimple.GetContentBySlug | src/lib/content-simple.ts:83-86 | the mock item of the kind with the slug, or nothing; a found item is the kind's only item |
| ContentSimple.SlugLookupExamples | src/lib/content-simple.ts:83-86 | the blog slug finds the blog post; talks never finds anything; a thought's slug is not found among blog posts |
| ContentSimple.GetPublishedContent | src/lib/content-simple.ts:88-90 | exactly the published mock items of the kind, with their multiplicity |
| ContentSimple.GetFeaturedContent | src/lib/content-simple.ts:92-95 | the truthy-limit prefix of the published mock items: min(limit, count) of them for a positive limit, that many fewer than the count for a negative one |
| ContentSimple.GetContentByTag | src/lib/content-simple.ts:97-101 | exactly the published mock items carrying the tag, with their multiplicity |
| ContentSimple.TagMatchFindsExactTag | src/lib/content-simple.ts:97-101 | "Next.js" finds the blog post and the project, but not the thought |
| ContentSimple.TagMatchIsCaseSensitive | src/lib/content-simple.ts:97-101 | tags match case-sensitively: "next.js" finds nothing |
| ContentSimple.GetAllTags | src/lib/content-simple.ts:103-109 | the sorted, duplicate-free tags of the mock items |
| ContentSimple.NextJsListedOnce | src/lib/content-simple.ts:103-109 | a tag shared by two items is listed once |
| ContentSimple.GetRecentContent | src/lib/content-simple.ts:111-116 | a prefix of blog post, thought, project (the published mock items newest first), min(limit, 3) long, or max(0, 3 + limit) long for a negative limit |
| ContentSimple.RecentDefaultOrder | src/lib/content-simple.ts:111-116 | the default call returns the blog post, the thought, then the project, newest first |
| ContentSimple.MockAllPublished | src/lib/content-simple.ts:30-73 | every mock item is published |
| ContentSimple.MockSortedByDate | src/lib/content-simple.ts:30-73 | sorting the mock items gives blog, thought, project by their dates |
| Loader.StripExtension | src/lib/content-server.ts:23 | the slug is the name without a trailing `.md` or `.mdx`, and other names are unchanged |
| Loader.StripExtensionRoundTrip | src/lib/content-server.ts:23 | stripping undoes appending `.md` or `.mdx` |
| Loader.StripExtensionExamples | src/lib/content-server.ts:23 | only one trailing extension is removed, and a `.txt` name is left alone |
| Loader.MarkdownNameExamples | src/lib/content-server.ts:17 | a name ending in `.md` or `.mdx` is a markdown file; the match is case-sensitive and needs the dot |
| Loader.DerivedReadingTime | src/lib/content-server.ts:26 | the server's derived reading time is never empty: the front matter's value when it is a non-empty string, otherwise the computed one; the newer loader derives none |
| Loader.SpreadNothing | src/lib/content-server.ts:28-34 | spreading front matter without keys leaves the derived record unchanged |
| Loader.SpreadTwice | src/lib/content-server.ts:28-34 | spreading the same front matter twice is spreading it once |
| Loader.ItemsOf | src/lib/content-server.ts:16-35 | one item per markdown file, in directory order, each built from its file |
| Loader.ToItem | src/lib/content-server.ts:18-34 | every front matter key overrides the derived value. Otherwise the slug is the stripped name, the kind is the directory's and the content is the body. Without the key, the server computes the reading time and the newer loader leaves it absent. A missing `published` means not published |
| Loader.MapToItems | src/lib/content-server.ts:18-35 | one item per file, position by position |
| Loader.LoadDirectory | src/lib/content-server.ts:8-44 | nothing for a missing directory; otherwise one item per markdown file, permuted into date order |
| Loader.LoadedFromMarkdown | src/lib/content-server.ts:16-35 | every loaded item comes from a markdown file of the directory |
| Loader.LoadDirectoryStable | src/lib/content-server.ts:36-41 | items with equal date values keep directory order |
| Loader.NoMarkdownLoadsNothing | src/lib/content-server.ts:17 | a directory without `.md`/`.mdx` files loads nothing |
| ContentServer.GetContentByType | src/lib/content-server.ts:46-48 | the kind's loaded markdown items, date-ordered, each with a reading time; nothing for a missing directory |
| ContentServer.MissingDirectoryIsEmpty | src/lib/content-server.ts:11-13 | removing one kind's directory empties that kind and leaves the others unchanged |
| ContentServer.GetAllContent | src/lib/content-server.ts:50-65 | the union of the five kinds' items, as a multiset, in date order, every item carrying a reading time |
| ContentServer.GetAllContentStable | src/lib/content-server.ts:50-65 | same-date items keep kind order, then loaded order |
| ContentServer.GetContentBySlug | src/lib/content-server.ts:67-70 | the first item of the loaded kind with the slug; nothing exactly when none has it |
| ContentNew.GetContentByType | src/lib/content-new.ts:71-73 | the kind's markdown items, one per file, date-ordered; nothing for a missing directory |
| ContentNew.LoadedItemsKeepFrontmatter | src/lib/content-new.ts:52-59 | each item's reading time is only the front matter's, and its kind is the directory's unless the front matter names one |
| ContentNew.GetAllContent | src/lib/content-new.ts:75-90 | the union of the five kinds' items, as a multiset, in date order |
| ContentNew.GetAllContentStable | src/lib/content-new.ts:84-89 | same-date items keep kind order, then loaded order |
| ContentNew.GetContentBySlug | src/lib/content-new.ts:92-95 | the first item of the loaded kind with the slug; nothing exactly when none has it |
| ContentNew.GetContentItem | src/lib/content-new.ts:97-100 | the alias always answers as the slug lookup does |
| ContentNew.GetPublishedContent | src/lib/content-new.ts:102-104 | exactly the published loaded items of the kind, in order, with their multiplicity |
| ContentNew.GetFeaturedContent | src/lib/content-new.ts:106-109 | the truthy-limit prefix of the published items of all content, following `slice` for negative limits |
| ContentNew.GetContentByTag | src/lib/content-new.ts:111-115 | exactly the published items of all content carrying the tag, with their multiplicity |
| ContentNew.GetAllTags | src/lib/content-new.ts:117-123 | the sorted, duplicate-free tags of all content |
| ContentNew.GetRecentContent | src/lib/content-new.ts:125-130 | the newest published items of all content: a prefix of the date-sorted published items, min(limit, count) long (default 5), following `slice` for negative limits |
| Search.Retag | src/lib/search.ts:27-32 | each item of an entry is copied with its kind set to the entry's key |
| Search.FlattenLength | src/lib/search.ts:26-33 | the index holds as many documents as the entries have items |
| Search.FlattenMembers | src/lib/search.ts:26-33 | a document is in the index exactly when it is some entry's item retagged with that entry's kind |
| Search.CreateSearchIndex | src/lib/search.ts:23-36 | the nested loops build the flattened, retagged list of every entry's items; every document has a kind |
| Search.PerformSearch | src/lib/search.ts:38-48 | a blank query gives nothing; otherwise the documents at the matcher's positions, in its order |
| Search.SearchResultsComeFromEntries | src/lib/search.ts:23-48 | every result of a non-blank search is a retagged item of some entry |
| GlobalSearch.JoinHoldsParts | src/components/global-search.tsx:59 | every tag occurs in the tags joined with spaces |
| GlobalSearch.SearchTextHoldsFields | src/components/global-search.tsx:59 | the search text holds the rendered title, the rendered description, the body and every tag |
| GlobalSearch.FieldMatchIsHit | src/components/global-search.tsx:57-61 | an eligible item is a hit whenever its title, description, body or one of its tags contains the query, ignoring case |
| GlobalSearch.Hits | src/components/global-search.tsx:57-61 | exactly the published, non-"now" items whose lower-cased search text contains the lower-cased query, in order, with their multiplicity |
| GlobalSearch.ComputeResults | src/components/global-search.tsx:55-66 | nothing for a blank query; otherwise the first min(6, hits) hits, each eligible and matching |
| GlobalSearch.ResultsCompleteBelowLimit | src/components/global-search.tsx:62 | with fewer than six results, every hit (eligible and matching) is shown |
| GlobalSearch.ResultsIgnoreQueryCase | src/components/global-search.tsx:60 | lower-casing the query never changes the results |
| GlobalSearch.LowerKeepsBlank | src/components/global-search.tsx:56-60 | a query is blank exactly when its lower-cased form is |
| GlobalSearch.LowerConcat | src/components/global-search.tsx:59 | lower-casing the joined text is joining the lower-cased parts |
| GlobalSearch.UntaggedItemsMatchUndefined | src/components/global-search.tsx:59 | an untagged item renders "undefined" into its search text, so the query "undefined" matches it |
| GlobalSearch.OnKeyDown | src/components/global-search.tsx:35-43 | Cmd/Ctrl+k opens, Escape closes, any other key changes nothing, and query and results are untouched |
| GlobalSearch.ShiftedShortcutIgnored | src/components/global-search.tsx:36 | the shortcut compares against lower-case "k" only |
| GlobalSearch.HandleClose | src/components/global-search.tsx:68-72 | closing leaves the overlay closed with an empty query and no results |
| GlobalSearch.QueryChanged | src/components/global-search.tsx:55-66 | a new query keeps the open flag and recomputes the results for that query |
| GlobalSearch.TransitionsKeepInSync | src/components/global-search.tsx:13-72 | the initial state shows the results of its query, and key presses, closing and typing keep it so |

## Left out

- File system access (`existsSync`, `readdirSync`, `readFileSync`) and front matter parsing (gray-matter) are left out. The directory tree is a parameter, and parsed front matter is a record of optional fields.
- `new Date(...)` parsing is left out. A date is its time stamp, or `None`.
- The JavaScript engine's choice of sort algorithm is left out. When some dates are missing, the comparator is not a consistent order, so the engine's output may differ from the model's stable insertion sort. Only the properties listed above are claimed.
- In-place mutation is left out. The client's `getAllContent` sorts its argument array in place; the model returns a new list.
- Front matter values are limited to what the record can hold. `null` values cannot be represented, and neither can non-string titles or `type` values outside the five kinds.
- Limits are integers. NaN and fractional limits cannot be represented.
- Text handling is ASCII only. Whitespace, lower-casing and string order cover ASCII. Strings are ordered by code point, where JavaScript compares UTF-16 units.
- The fuzzy matcher's scoring is left out: the key weights, the 0.4 threshold and the two-character minimum. It is an oracle returning document positions.
- Search.CreateSearchIndex: object keys outside the five kinds are not modelled, because an entry's key is a `Kind`.
- React rendering, focus, body class toggling, links and colour badges are left out.
- The "Search across" counts and the overlay's click handlers are left out.
- GlobalSearch.TransitionsKeepInSync: `allContent` is fixed. The results effect depends only on the query, so a change of props without a query change would leave stale results, and that is not modelled.
- `src/lib/content.ts` is not part of this model. The server's `calculateReadingTime` is taken to be the same as the one in `content-client.ts`, `content-simple.ts` and `content-new.ts`.
- The item fields `liveUrl`, `githubUrl`, `event`, `location`, `slidesUrl`, `videoUrl`, `lastUpdated` and `categories` have no dedicated fields. Front matter string keys other than the modelled ones go into one `extra` map.
