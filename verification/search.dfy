/** The search index (`src/lib/search.ts`): the content of every kind is
    flattened into one list of documents, each tagged with its kind, and a
    query is answered by a fuzzy matcher.  The matcher's scoring is not
    modelled: it is an oracle naming, for a query, which documents match and
    in what order. */
module Search {
  import opened Options
  import opened Seqs
  import opened Text
  import opened Content

  /** One entry of the `{ kind: items }` object handed to the index. */
  type Entry = (Kind, seq<ContentItem>)

  /** `{ ...item, type }`, item by item. */
  function Retag(k: Kind, items: seq<ContentItem>): (r: seq<ContentItem>)
    ensures |r| == |items|
    ensures forall i :: 0 <= i < |r| ==> r[i] == items[i].(kind := Some(k))
  {
    if items == [] then [] else Retag(k, items[..|items| - 1]) + [items[|items| - 1].(kind := Some(k))]
  }

  /** The reference definition of the document list: the entries' items,
      entry after entry, each retagged with its entry's kind. */
  function Flatten(entries: seq<Entry>): seq<ContentItem> {
    if entries == [] then []
    else Flatten(entries[..|entries| - 1]) + Retag(entries[|entries| - 1].0, entries[|entries| - 1].1)
  }

  function TotalItems(entries: seq<Entry>): nat {
    if entries == [] then 0 else TotalItems(entries[..|entries| - 1]) + |entries[|entries| - 1].1|
  }

  lemma {:induction false} FlattenLength(entries: seq<Entry>)
    ensures |Flatten(entries)| == TotalItems(entries)
  {
    if entries != [] {
      FlattenLength(entries[..|entries| - 1]);
    }
  }

  /** `x` is the `i`-th item of the `j`-th entry, retagged. */
  predicate FromEntry(entries: seq<Entry>, x: ContentItem) {
    exists j, i :: 0 <= j < |entries| && 0 <= i < |entries[j].1| && x == entries[j].1[i].(kind := Some(entries[j].0))
  }

  /** A document is in the index exactly when it is some entry's item with
      that entry's kind. */
  lemma FlattenMembers(entries: seq<Entry>, x: ContentItem)
    ensures x in Flatten(entries) <==> FromEntry(entries, x)
  {
    FlattenFromEntries(entries, x);
    EntriesInFlatten(entries, x);
  }

  lemma {:induction false} FlattenFromEntries(entries: seq<Entry>, x: ContentItem)
    ensures x in Flatten(entries) ==> FromEntry(entries, x)
  {
    if entries != [] {
      var init, last := entries[..|entries| - 1], entries[|entries| - 1];
      var tail := Retag(last.0, last.1);
      assert Flatten(entries) == Flatten(init) + tail;
      FlattenFromEntries(init, x);
      if x in Flatten(init) {
        var j, i :| 0 <= j < |init| && 0 <= i < |init[j].1| && x == init[j].1[i].(kind := Some(init[j].0));
        assert init[j] == entries[j];
      } else if x in tail {
        var i :| 0 <= i < |tail| && tail[i] == x;
        assert x == entries[|entries| - 1].1[i].(kind := Some(entries[|entries| - 1].0));
      }
    }
  }

  lemma {:induction false} EntriesInFlatten(entries: seq<Entry>, x: ContentItem)
    ensures FromEntry(entries, x) ==> x in Flatten(entries)
  {
    if entries != [] && FromEntry(entries, x) {
      var init, last := entries[..|entries| - 1], entries[|entries| - 1];
      var tail := Retag(last.0, last.1);
      assert Flatten(entries) == Flatten(init) + tail;
      var j, i :| 0 <= j < |entries| && 0 <= i < |entries[j].1| && x == entries[j].1[i].(kind := Some(entries[j].0));
      if j < |init| {
        assert init[j] == entries[j];
        EntriesInFlatten(init, x);
      } else {
        assert tail[i] == x;
      }
    }
  }

  /** `createSearchIndex`: the document list the matcher is built over. */
  method CreateSearchIndex(entries: seq<Entry>) returns (docs: seq<ContentItem>)
    ensures docs == Flatten(entries)
    ensures |docs| == TotalItems(entries)
    ensures forall x :: x in docs ==> x.kind.Some?
  {
    docs := [];
    var j := 0;
    while j < |entries|
      invariant 0 <= j <= |entries|
      invariant docs == Flatten(entries[..j])
    {
      var (k, items) := entries[j];
      var i := 0;
      while i < |items|
        invariant 0 <= i <= |items|
        invariant docs == Flatten(entries[..j]) + Retag(k, items[..i])
      {
        docs := docs + [items[i].(kind := Some(k))];
        assert items[..i + 1][..i] == items[..i];
        i := i + 1;
      }
      assert items[..i] == items;
      assert entries[..j + 1][..j] == entries[..j];
      j := j + 1;
    }
    assert entries[..j] == entries;
    FlattenLength(entries);
    assert forall x :: x in docs ==> x.kind.Some? by {
      forall x | x in docs ensures x.kind.Some? {
        FlattenMembers(entries, x);
      }
    }
  }

  /** What the matcher may answer: positions of documents, none twice. */
  predicate ValidHits(hits: seq<nat>, n: nat) {
    (forall i :: 0 <= i < |hits| ==> hits[i] < n)
    && (forall i, j :: 0 <= i < j < |hits| ==> hits[i] != hits[j])
  }

  /** `performSearch`: nothing for a blank query; otherwise the matched
      documents in the matcher's order. */
  function PerformSearch(docs: seq<ContentItem>, query: string, rank: string -> seq<nat>): (r: seq<ContentItem>)
    requires ValidHits(rank(query), |docs|)
    ensures IsBlank(query) ==> r == []
    ensures !IsBlank(query) ==> |r| == |rank(query)|
    ensures !IsBlank(query) ==> forall i :: 0 <= i < |r| ==> r[i] == docs[rank(query)[i]]
    ensures forall x :: x in r ==> x in docs
  {
    if IsBlank(query) then []
    else
      var hits := rank(query);
      seq(|hits|, i requires 0 <= i < |hits| => docs[hits[i]])
  }

  /** Every search result is a retagged item of one of the index's
      entries. */
  lemma SearchResultsComeFromEntries(entries: seq<Entry>, query: string, rank: string -> seq<nat>, x: ContentItem)
    requires ValidHits(rank(query), |Flatten(entries)|)
    ensures x in PerformSearch(Flatten(entries), query, rank) ==> !IsBlank(query) && x.kind.Some? && FromEntry(entries, x)
  {
    FlattenMembers(entries, x);
  }
}
