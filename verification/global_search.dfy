/** The search overlay (`src/components/global-search.tsx`): open/closed
    state, the query, and the results recomputed by a plain substring
    filter whenever the query changes. */
module GlobalSearch {
  import opened Options
  import opened Seqs
  import opened Text
  import opened Content

  /** At most this many results are shown. */
  const MaxResults := 6

  datatype SearchState = SearchState(isOpen: bool, query: string, results: seq<ContentItem>)

  const Initial := SearchState(false, "", [])

  /** A template literal's rendering of an optional string. */
  function Show(o: Option<string>): string {
    match o
    case None => "undefined"
    case Some(v) => v
  }

  function Join(parts: seq<string>, sep: string): string {
    if parts == [] then []
    else if |parts| == 1 then parts[0]
    else parts[0] + sep + Join(parts[1..], sep)
  }

  /** `${title} ${description} ${content} ${tags?.join(' ')}`. */
  function SearchText(x: ContentItem): string {
    Show(x.title) + " " + Show(x.description) + " " + x.content + " "
      + Show(if x.tags.Some? then Some(Join(x.tags.value, " ")) else None)
  }

  /** Every part of a join occurs in the joined text. */
  lemma {:induction false} JoinHoldsParts(parts: seq<string>, sep: string)
    ensures forall i :: 0 <= i < |parts| ==> Contains(Join(parts, sep), parts[i])
    decreases |parts|
  {
    if |parts| == 1 {
      ContainsSelf(parts[0]);
    } else if |parts| > 1 {
      var rest := Join(parts[1..], sep);
      JoinHoldsParts(parts[1..], sep);
      assert Join(parts, sep) == parts[0] + (sep + rest);
      ContainsSelf(parts[0]);
      ContainsInConcat(parts[0], sep + rest, parts[0]);
      forall i | 1 <= i < |parts|
        ensures Contains(Join(parts, sep), parts[i])
      {
        assert parts[i] == parts[1..][i - 1];
        ContainsInConcat(sep, rest, parts[i]);
        ContainsInConcat(parts[0], sep + rest, parts[i]);
      }
    }
  }

  /** The search text holds the rendered title, the rendered description,
      the body and, when there are tags, every tag. */
  lemma SearchTextHoldsFields(x: ContentItem)
    ensures Contains(SearchText(x), Show(x.title))
    ensures Contains(SearchText(x), Show(x.description))
    ensures Contains(SearchText(x), x.content)
    ensures x.tags.Some? ==> forall i :: 0 <= i < |x.tags.value| ==> Contains(SearchText(x), x.tags.value[i])
  {
    var t, d, c := Show(x.title), Show(x.description), x.content;
    var g := Show(if x.tags.Some? then Some(Join(x.tags.value, " ")) else None);
    var a1 := t + " ";
    var a2 := a1 + d;
    var a3 := a2 + " ";
    var a4 := a3 + c;
    var a5 := a4 + " ";
    assert SearchText(x) == a5 + g;
    ContainsSelf(t);
    ContainsSelf(d);
    ContainsSelf(c);
    ContainsInConcat(t, " ", t);
    ContainsInConcat(a1, d, t);
    ContainsInConcat(a1, d, d);
    ContainsInConcat(a2, " ", t);
    ContainsInConcat(a2, " ", d);
    ContainsInConcat(a3, c, t);
    ContainsInConcat(a3, c, d);
    ContainsInConcat(a3, c, c);
    ContainsInConcat(a4, " ", t);
    ContainsInConcat(a4, " ", d);
    ContainsInConcat(a4, " ", c);
    ContainsInConcat(a5, g, t);
    ContainsInConcat(a5, g, d);
    ContainsInConcat(a5, g, c);
    if x.tags.Some? {
      JoinHoldsParts(x.tags.value, " ");
      forall i | 0 <= i < |x.tags.value|
        ensures Contains(SearchText(x), x.tags.value[i])
      {
        ContainsInConcat(a5, g, x.tags.value[i]);
      }
    }
  }

  /** Only published items, and never the "now" page, are searched. */
  predicate Eligible(x: ContentItem) {
    x.published && x.kind != Some(Now)
  }

  /** Case-insensitive substring match of the (untrimmed) query. */
  predicate MatchesQuery(x: ContentItem, query: string) {
    Contains(Lower(SearchText(x)), Lower(query))
  }

  /** An eligible item is a hit whenever its title, description, body or
      one of its tags contains the query, ignoring case. */
  lemma FieldMatchIsHit(all: seq<ContentItem>, x: ContentItem, query: string, field: string)
    requires x in all && Eligible(x)
    requires field == Show(x.title) || field == Show(x.description) || field == x.content
             || (x.tags.Some? && field in x.tags.value)
    requires Contains(Lower(field), Lower(query))
    ensures x in Hits(all, query)
  {
    SearchTextHoldsFields(x);
    assert Contains(SearchText(x), field);
    ContainsLower(SearchText(x), field);
    ContainsTransitive(Lower(SearchText(x)), Lower(field), Lower(query));
  }

  /** Every eligible item whose lower-cased text contains `lowered`: the
      two successive filters of the effect, as one. */
  function HitsLowered(all: seq<ContentItem>, lowered: string): (r: seq<ContentItem>)
    ensures forall x :: x in r <==> x in all && Eligible(x) && Contains(Lower(SearchText(x)), lowered)
    ensures forall x :: multiset(r)[x] == if Eligible(x) && Contains(Lower(SearchText(x)), lowered) then multiset(all)[x] else 0
    ensures IsSubseq(r, all)
  {
    Filter(all, (x: ContentItem) => Eligible(x) && Contains(Lower(SearchText(x)), lowered))
  }

  /** Every eligible item the query matches, in list order. */
  function Hits(all: seq<ContentItem>, query: string): (r: seq<ContentItem>)
    ensures forall x :: x in r <==> x in all && Eligible(x) && MatchesQuery(x, query)
    ensures forall x :: multiset(r)[x] == if Eligible(x) && MatchesQuery(x, query) then multiset(all)[x] else 0
    ensures IsSubseq(r, all)
  {
    HitsLowered(all, Lower(query))
  }

  /** The results effect: nothing for a blank query, otherwise the first
      six hits. */
  function ComputeResults(all: seq<ContentItem>, query: string): (r: seq<ContentItem>)
    ensures IsBlank(query) ==> r == []
    ensures |r| <= MaxResults
    ensures forall x :: x in r ==> x in all && Eligible(x) && MatchesQuery(x, query)
    ensures !IsBlank(query) ==> |r| == Min(MaxResults, |Hits(all, query)|) && r == Hits(all, query)[..|r|]
  {
    if IsBlank(query) then []
    else
      var h := Hits(all, query);
      var r := h[..Min(MaxResults, |h|)];
      assert forall x :: x in r ==> x in h;
      r
  }

  /** When fewer than six results are shown, none was cut: every eligible
      matching item is among them. */
  lemma ResultsCompleteBelowLimit(all: seq<ContentItem>, query: string, x: ContentItem)
    requires !IsBlank(query)
    ensures (|ComputeResults(all, query)| < MaxResults && x in Hits(all, query)) ==> x in ComputeResults(all, query)
  {
    var r, h := ComputeResults(all, query), Hits(all, query);
    if |r| < MaxResults {
      assert |r| == |h|;
      assert r == h;
    }
  }

  lemma LowerKeepsBlank(s: string)
    ensures IsBlank(Lower(s)) == IsBlank(s)
  {
    assert forall i :: 0 <= i < |s| ==> (IsWhitespace(Lower(s)[i]) <==> IsWhitespace(s[i]));
  }

  /** The query's letter case never matters. */
  lemma ResultsIgnoreQueryCase(all: seq<ContentItem>, query: string)
    ensures ComputeResults(all, Lower(query)) == ComputeResults(all, query)
  {
    LowerKeepsBlank(query);
    LowerIdempotent(query);
  }

  /** Lower-casing distributes over concatenation. */
  lemma {:induction false} LowerConcat(p: string, u: string)
    ensures Lower(p + u) == Lower(p) + Lower(u)
  {
    if p == [] {
      assert p + u == u;
    } else {
      assert (p + u)[1..] == p[1..] + u;
      LowerConcat(p[1..], u);
    }
  }

  /** A quirk of the template literal: an item without tags has the text
      "undefined" in its search text, so the query "undefined" matches
      every eligible untagged item. */
  lemma UntaggedItemsMatchUndefined(x: ContentItem)
    requires x.tags.None?
    ensures MatchesQuery(x, "undefined")
  {
    var u := "undefined";
    var p := Show(x.title) + " " + Show(x.description) + " " + x.content + " ";
    assert SearchText(x) == p + u;
    LowerKeepsLowercase(u);
    LowerConcat(p, u);
    var lt := Lower(p + u);
    assert lt[|p|..] == u;
    ContainsIffOccurs(lt, u);
  }

  /** A key press on the document: `key` with the modifier flags. */
  datatype KeyEvent = KeyEvent(key: string, metaKey: bool, ctrlKey: bool)

  /** The document key handler: Cmd/Ctrl+K opens, Escape closes. */
  function OnKeyDown(s: SearchState, e: KeyEvent): (t: SearchState)
    ensures t.query == s.query && t.results == s.results
    ensures (e.metaKey || e.ctrlKey) && e.key == "k" ==> t.isOpen
    ensures e.key == "Escape" ==> !t.isOpen
    ensures !((e.metaKey || e.ctrlKey) && e.key == "k") && e.key != "Escape" ==> t == s
  {
    var shown := if (e.metaKey || e.ctrlKey) && e.key == "k" then s.(isOpen := true) else s;
    if e.key == "Escape" then shown.(isOpen := false) else shown
  }

  /** The shortcut is the lower-case letter only: with Shift held the key
      is "K" and nothing happens. */
  lemma ShiftedShortcutIgnored(s: SearchState)
    ensures OnKeyDown(s, KeyEvent("K", true, false)) == s
  {
  }

  /** `handleClose`: closed, query and results cleared. */
  function HandleClose(s: SearchState): (t: SearchState)
    ensures !t.isOpen && t.query == [] && t.results == []
  {
    SearchState(false, "", [])
  }

  /** Typing in the input: the query changes and the results effect runs. */
  function QueryChanged(all: seq<ContentItem>, s: SearchState, q: string): (t: SearchState)
    ensures t.isOpen == s.isOpen && t.query == q
    ensures t.results == ComputeResults(all, q)
  {
    s.(query := q, results := ComputeResults(all, q))
  }

  /** The shown results are always the results of the current query. */
  predicate InSync(all: seq<ContentItem>, s: SearchState) {
    s.results == ComputeResults(all, s.query)
  }

  /** The initial state is in sync, and every transition keeps it so. */
  lemma TransitionsKeepInSync(all: seq<ContentItem>, s: SearchState, e: KeyEvent, q: string)
    ensures InSync(all, Initial)
    ensures InSync(all, s) ==> InSync(all, OnKeyDown(s, e))
    ensures InSync(all, HandleClose(s))
    ensures InSync(all, QueryChanged(all, s, q))
  {
    assert IsBlank("");
  }
}
