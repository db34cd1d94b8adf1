/** The file-backed repository (`src/lib/content-server.ts`): each query
    re-reads the kind's directory with the reading-time-deriving loader. */
module ContentServer {
  import opened Options
  import opened Seqs
  import opened Content
  import opened DateSort
  import opened Queries
  import opened Loader

  /** `getContentByType`: the kind's directory, loaded. */
  function GetContentByType(store: Store, k: Kind): (r: seq<ContentItem>)
    ensures k !in store ==> r == []
    ensures k in store ==> multiset(r) == multiset(ItemsOf(store[k], k, DerivesReadingTime))
    ensures DateOrdered(r)
    ensures forall x :: x in r ==> x.readingTime.Some?
  {
    var r := LoadDirectory(Directory(store, k), k, DerivesReadingTime);
    assert forall x :: x in r ==> x.readingTime.Some? by {
      forall x | x in r ensures x.readingTime.Some? {
        LoadedFromMarkdown(store[k], k, DerivesReadingTime, x);
      }
    }
    r
  }

  /** `getAllContent`: the union of the five kinds' items, newest first,
      every one with a reading time. */
  function GetAllContent(store: Store): (r: seq<ContentItem>)
    ensures multiset(r) == multiset(GetContentByType(store, Thoughts)) + multiset(GetContentByType(store, Blog))
                           + multiset(GetContentByType(store, Projects)) + multiset(GetContentByType(store, Talks))
                           + multiset(GetContentByType(store, Now))
    ensures DateOrdered(r)
    ensures forall x :: x in r ==> x.readingTime.Some?
  {
    var all := GatherKinds((k: Kind) => GetContentByType(store, k));
    assert forall x :: x in all ==> x.readingTime.Some?;
    SortKeepsMembers(all);
    SortByDate(all)
  }

  /** Stability of `getAllContent`: items sharing a date value keep the
      order of the kinds and, within a kind, of the loaded list. */
  lemma GetAllContentStable(store: Store, d: Option<int>)
    ensures Filter(GetAllContent(store), DatedAs(d))
         == Filter(GatherKinds((k: Kind) => GetContentByType(store, k)), DatedAs(d))
  {
    SortStable(GatherKinds((k: Kind) => GetContentByType(store, k)), d);
  }

  /** `getContentBySlug`: the first item of the kind's loaded list with the
      slug, or nothing. */
  function GetContentBySlug(store: Store, k: Kind, slug: string): (r: Option<ContentItem>)
    ensures r.Some? ==> r.value.slug == slug && r.value in GetContentByType(store, k)
    ensures r.Some? ==> exists i :: 0 <= i < |GetContentByType(store, k)| && GetContentByType(store, k)[i] == r.value
                                    && forall j :: 0 <= j < i ==> GetContentByType(store, k)[j].slug != slug
    ensures r.None? <==> forall x :: x in GetContentByType(store, k) ==> x.slug != slug
  {
    FindSlug(GetContentByType(store, k), slug)
  }

  /** A missing directory contributes nothing, and the other kinds load as
      before. */
  lemma MissingDirectoryIsEmpty(store: Store, k: Kind, other: Kind)
    requires other != k
    ensures GetContentByType(store - {k}, k) == []
    ensures GetContentByType(store - {k}, other) == GetContentByType(store, other)
  {
    assert Directory(store - {k}, other) == Directory(store, other);
  }
}
