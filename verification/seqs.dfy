/** Order-preserving sequence operations shared by every query: the
    JavaScript array methods `filter`, `find` and `slice(0, end)`. */
module Seqs {
  import opened Options

  function Min(a: int, b: int): int { if a <= b then a else b }
  function Max(a: int, b: int): int { if a <= b then b else a }

  /** `a` occurs in `b` in the same order, possibly with gaps.  Matching
      greedily against the head of `b` is complete for subsequences. */
  predicate IsSubseq<T(==)>(a: seq<T>, b: seq<T>)
    decreases |b|
  {
    if a == [] then true
    else if b == [] then false
    else if a[0] == b[0] then IsSubseq(a[1..], b[1..])
    else IsSubseq(a, b[1..])
  }

  /** `Array.prototype.filter`: the elements satisfying `p`, in order. */
  function Filter<T(==,!new)>(s: seq<T>, p: T -> bool): (r: seq<T>)
    ensures |r| <= |s|
    ensures forall i :: 0 <= i < |r| ==> p(r[i])
    ensures forall x :: x in r <==> x in s && p(x)
    ensures forall x :: multiset(r)[x] == if p(x) then multiset(s)[x] else 0
    ensures IsSubseq(r, s)
  {
    if s == [] then []
    else
      assert s == [s[0]] + s[1..];
      var rest := Filter(s[1..], p);
      if p(s[0]) then [s[0]] + rest
      else
        assert rest != [] ==> rest[0] != s[0];
        rest
  }

  /** Filtering distributes over concatenation. */
  lemma {:induction false} FilterConcat<T(!new)>(a: seq<T>, b: seq<T>, p: T -> bool)
    ensures Filter(a + b, p) == Filter(a, p) + Filter(b, p)
    decreases |a|
  {
    if a == [] {
      assert a + b == b;
    } else {
      assert (a + b)[0] == a[0];
      assert (a + b)[1..] == a[1..] + b;
      FilterConcat(a[1..], b, p);
    }
  }

  /** Index of the first element satisfying `p`. */
  function FindIndex<T>(s: seq<T>, p: T -> bool): (r: Option<nat>)
    ensures r.Some? ==> r.value < |s| && p(s[r.value])
    ensures r.Some? ==> forall j :: 0 <= j < r.value ==> !p(s[j])
    ensures r.None? <==> forall i :: 0 <= i < |s| ==> !p(s[i])
  {
    if s == [] then None
    else if p(s[0]) then Some(0)
    else match FindIndex(s[1..], p)
      case None => None
      case Some(i) => Some(i + 1)
  }

  /** `Array.prototype.find` followed by `|| null`: the first element
      satisfying `p`, or nothing. */
  function Find<T>(s: seq<T>, p: T -> bool): (r: Option<T>)
    ensures r.Some? ==> p(r.value)
    ensures r.Some? ==> exists i :: 0 <= i < |s| && s[i] == r.value && forall j :: 0 <= j < i ==> !p(s[j])
    ensures r.None? <==> forall i :: 0 <= i < |s| ==> !p(s[i])
  {
    match FindIndex(s, p)
    case None => None
    case Some(i) => Some(s[i])
  }

  /** `Find` examines the head first, then the rest. */
  lemma FindUnfold<T>(s: seq<T>, p: T -> bool)
    requires s != []
    ensures Find(s, p) == if p(s[0]) then Some(s[0]) else Find(s[1..], p)
  {
    if !p(s[0]) {
      match FindIndex(s[1..], p)
      case None =>
      case Some(i) => assert s[1..][i] == s[i + 1];
    }
  }

  /** Searching the filtered sequence finds the first element satisfying
      both predicates. */
  lemma {:induction false} FindInFiltered<T(!new)>(s: seq<T>, p: T -> bool, q: T -> bool)
    ensures Find(Filter(s, p), q) == Find(s, (x: T) => p(x) && q(x))
    decreases |s|
  {
    var pq := (x: T) => p(x) && q(x);
    if s != [] {
      FindInFiltered(s[1..], p, q);
      FindUnfold(s, pq);
      if p(s[0]) {
        FindUnfold(Filter(s, p), q);
        assert Filter(s, p)[1..] == Filter(s[1..], p);
      }
    }
  }

  /** What `FindInFiltered` means for a caller: the first element
      satisfying both predicates, or nothing when none does. */
  lemma FindInFilteredFirst<T(!new)>(s: seq<T>, p: T -> bool, q: T -> bool)
    ensures var r := Find(Filter(s, p), q);
            && (r.Some? ==> p(r.value) && q(r.value))
            && (r.Some? ==> exists i :: 0 <= i < |s| && s[i] == r.value &&
                              forall j :: 0 <= j < i ==> !(p(s[j]) && q(s[j])))
            && (r.None? <==> forall i :: 0 <= i < |s| ==> !(p(s[i]) && q(s[i])))
  {
    FindInFiltered(s, p, q);
  }

  /** The number of elements `s.slice(0, end)` keeps: a negative `end`
      counts back from the end of the array. */
  function SliceLength(len: nat, end: int): (k: nat)
    ensures k <= len
    ensures 0 <= end ==> k == Min(end, len)
    ensures end < 0 ==> k == Max(0, len + end)
  {
    if end < 0 then (if len + end < 0 then 0 else len + end)
    else if end < len then end
    else len
  }

  /** `s.slice(0, end)`. */
  function Slice<T>(s: seq<T>, end: int): (r: seq<T>)
    ensures |r| <= |s| && r == s[..|r|]
    ensures 0 <= end ==> |r| == Min(end, |s|)
    ensures end < 0 ==> |r| == Max(0, |s| + end)
  {
    s[..SliceLength(|s|, end)]
  }

  /** Every element of a prefix occurs in the whole sequence. */
  lemma PrefixMembers<T>(s: seq<T>, k: nat)
    requires k <= |s|
    ensures forall x :: x in s[..k] ==> x in s
  {
    forall x | x in s[..k] ensures x in s {
      var i :| 0 <= i < k && s[..k][i] == x;
      assert s[i] == x;
    }
  }
}
