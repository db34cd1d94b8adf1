/** The string primitives the content core relies on: `trim`, splitting on
    whitespace runs, ASCII lower-casing, substring search, number formatting
    and the code-point order that stands for the default `Array.prototype.sort`.
    Whitespace and case are restricted to ASCII. */
module Text {

  /** ASCII members of the `\s` class: space, tab, line feed, vertical tab,
      form feed and carriage return. */
  predicate IsWhitespace(c: char) {
    c == ' ' || c == '\t' || c == '\n' || c == '\r' || c == '\U{000B}' || c == '\U{000C}'
  }

  predicate AllWhitespace(s: string) {
    forall i :: 0 <= i < |s| ==> IsWhitespace(s[i])
  }

  // ---------------------------------------------------------------- trim

  /** Number of leading whitespace characters. */
  function LeadingSpaces(s: string): (n: nat)
    ensures n <= |s|
    ensures forall i :: 0 <= i < n ==> IsWhitespace(s[i])
    ensures n < |s| ==> !IsWhitespace(s[n])
  {
    if s != [] && IsWhitespace(s[0]) then 1 + LeadingSpaces(s[1..]) else 0
  }

  /** Length of `s` without its trailing whitespace. */
  function TrailingStart(s: string): (n: nat)
    ensures n <= |s|
    ensures forall i :: n <= i < |s| ==> IsWhitespace(s[i])
    ensures 0 < n ==> !IsWhitespace(s[n - 1])
  {
    if s != [] && IsWhitespace(s[|s| - 1]) then TrailingStart(s[..|s| - 1]) else |s|
  }

  /** `String.prototype.trim`: the result is the slice of `s` that remains
      once the leading and trailing whitespace is dropped, so it neither
      starts nor ends with whitespace. */
  function Trim(s: string): (r: string)
    ensures var lo := LeadingSpaces(s);
            lo + |r| <= |s| && r == s[lo..lo + |r|]
            && forall i :: lo + |r| <= i < |s| ==> IsWhitespace(s[i])
    ensures r != [] ==> !IsWhitespace(r[0]) && !IsWhitespace(r[|r| - 1])
    ensures r == [] <==> AllWhitespace(s)
  {
    var lo := LeadingSpaces(s);
    var t := s[lo..];
    var hi := TrailingStart(t);
    assert s == s[..lo] + t;
    AllWhitespaceConcat(s[..lo], t);
    t[..hi]
  }

  lemma AllWhitespaceConcat(a: string, b: string)
    ensures AllWhitespace(a + b) <==> AllWhitespace(a) && AllWhitespace(b)
  {
    assert forall i :: 0 <= i < |a| ==> (a + b)[i] == a[i];
    assert forall i :: 0 <= i < |b| ==> (a + b)[|a| + i] == b[i];
  }

  /** `!s.trim()`: the text is empty once trimmed. */
  function IsBlank(s: string): (b: bool)
    ensures b <==> AllWhitespace(s)
  {
    Trim(s) == []
  }

  // ---------------------------------------------------- split on /\s+/

  /** Index of the first whitespace character, or `|t|`. */
  function FirstWhitespace(t: string): (i: nat)
    ensures i <= |t|
    ensures forall k :: 0 <= k < i ==> !IsWhitespace(t[k])
    ensures i < |t| ==> IsWhitespace(t[i])
  {
    if t == [] || IsWhitespace(t[0]) then 0 else 1 + FirstWhitespace(t[1..])
  }

  /** End of the maximal whitespace run that starts at `i`. */
  function RunEnd(t: string, i: nat): (j: nat)
    requires i <= |t|
    ensures i <= j <= |t|
    ensures forall k :: i <= k < j ==> IsWhitespace(t[k])
    ensures j < |t| ==> !IsWhitespace(t[j])
    decreases |t| - i
  {
    if i < |t| && IsWhitespace(t[i]) then RunEnd(t, i + 1) else i
  }

  predicate NoWhitespace(p: string) {
    forall k :: 0 <= k < |p| ==> !IsWhitespace(p[k])
  }

  /** The non-whitespace characters of `t`, in order. */
  function NonSpace(t: string): string {
    if t == [] then [] else (if IsWhitespace(t[0]) then [] else [t[0]]) + NonSpace(t[1..])
  }

  /** The pieces of a split, glued back together. */
  function Concat(ps: seq<string>): string {
    if ps == [] then [] else ps[0] + Concat(ps[1..])
  }

  lemma {:induction false} NonSpaceConcat(a: string, b: string)
    ensures NonSpace(a + b) == NonSpace(a) + NonSpace(b)
    decreases |a|
  {
    if a == [] {
      assert a + b == b;
    } else {
      assert (a + b)[1..] == a[1..] + b;
      NonSpaceConcat(a[1..], b);
    }
  }

  lemma {:induction false} NonSpaceOfWord(p: string)
    requires NoWhitespace(p)
    ensures NonSpace(p) == p
    decreases |p|
  {
    if p != [] {
      NonSpaceOfWord(p[1..]);
    }
  }

  lemma {:induction false} NonSpaceOfSpaces(p: string)
    requires AllWhitespace(p)
    ensures NonSpace(p) == []
    decreases |p|
  {
    if p != [] {
      NonSpaceOfSpaces(p[1..]);
    }
  }

  /** `t.split(/\s+/)`: the pieces between maximal whitespace runs.  An
      empty string yields one empty piece; leading or trailing whitespace
      yields an empty first or last piece. */
  function SplitOnWhitespace(t: string): (r: seq<string>)
    ensures |r| >= 1
    ensures forall k :: 0 <= k < |r| ==> NoWhitespace(r[k])
    decreases |t|
  {
    var i := FirstWhitespace(t);
    if i == |t| then [t]
    else [t[..i]] + SplitOnWhitespace(t[RunEnd(t, i)..])
  }

  /** The pieces of a split hold exactly the non-whitespace characters of
      `t`, in order; the first piece is empty exactly when `t` is empty or
      starts with whitespace, the last exactly when it is empty or ends
      with whitespace, and every piece in between is non-empty.  Where one
      piece ends and the next begins is not claimed here; the number of
      pieces is fixed by `SplitWordCountIsWords`. */
  lemma SplitPieces(t: string)
    ensures var r := SplitOnWhitespace(t);
            && Concat(r) == NonSpace(t)
            && (r[0] == [] <==> t == [] || IsWhitespace(t[0]))
            && (r[|r| - 1] == [] <==> t == [] || IsWhitespace(t[|t| - 1]))
            && (forall k :: 0 < k < |r| - 1 ==> r[k] != [])
  {
    SplitConcat(t);
    SplitFirst(t);
    SplitLast(t);
    SplitMiddle(t);
  }

  /** A text with whitespace is a word, a whitespace run and a tail; its
      pieces are the word followed by the tail's pieces. */
  lemma SplitParts(t: string) returns (w: string, tail: string)
    requires FirstWhitespace(t) < |t|
    ensures SplitOnWhitespace(t) == [w] + SplitOnWhitespace(tail)
    ensures NonSpace(t) == w + NonSpace(tail)
    ensures tail == [] ==> IsWhitespace(t[|t| - 1])
    ensures tail != [] ==> !IsWhitespace(tail[0]) && t[|t| - 1] == tail[|tail| - 1]
    ensures |tail| < |t|
  {
    var i := FirstWhitespace(t);
    var j := RunEnd(t, i);
    var gap;
    w, gap, tail := t[..i], t[i..j], t[j..];
    assert tail != [] ==> tail[0] == t[j];
    assert tail == [] ==> IsWhitespace(t[j - 1]);
    assert SplitOnWhitespace(t) == [w] + SplitOnWhitespace(tail);
    assert NonSpace(t) == w + NonSpace(tail) by {
      WordBeforeGap(t, i);
      GapIsWhitespace(t, i, j);
      assert t == w + (gap + tail);
      NonSpaceAroundGap(w, gap, tail);
    }
  }

  lemma WordBeforeGap(t: string, i: nat)
    requires i == FirstWhitespace(t)
    ensures NoWhitespace(t[..i])
  {
    assert forall k :: 0 <= k < i ==> t[..i][k] == t[k];
  }

  lemma GapIsWhitespace(t: string, i: nat, j: nat)
    requires i <= |t| && j == RunEnd(t, i)
    ensures AllWhitespace(t[i..j])
  {
    assert forall k :: 0 <= k < j - i ==> t[i..j][k] == t[i + k];
  }

  lemma {:induction false} SplitConcat(t: string)
    ensures Concat(SplitOnWhitespace(t)) == NonSpace(t)
    decreases |t|
  {
    if FirstWhitespace(t) == |t| {
      NonSpaceOfWord(t);
      assert Concat([t]) == t + Concat([]);
    } else {
      var w, tail := SplitParts(t);
      SplitConcat(tail);
      ConcatCons(w, SplitOnWhitespace(tail));
    }
  }

  lemma SplitFirst(t: string)
    ensures SplitOnWhitespace(t)[0] == [] <==> t == [] || IsWhitespace(t[0])
  {
    var i := FirstWhitespace(t);
    assert SplitOnWhitespace(t)[0] == t[..i];
  }

  lemma {:induction false} SplitLast(t: string)
    ensures var r := SplitOnWhitespace(t); r[|r| - 1] == [] <==> t == [] || IsWhitespace(t[|t| - 1])
    decreases |t|
  {
    var r := SplitOnWhitespace(t);
    if FirstWhitespace(t) < |t| {
      var w, tail := SplitParts(t);
      var rest := SplitOnWhitespace(tail);
      SplitLast(tail);
      assert tail == [] ==> rest == [[]];
      assert r[|r| - 1] == rest[|rest| - 1];
    } else {
      assert r == [t];
      assert t != [] ==> !IsWhitespace(t[|t| - 1]);
    }
  }

  lemma {:induction false} SplitMiddle(t: string)
    ensures var r := SplitOnWhitespace(t); forall k :: 0 < k < |r| - 1 ==> r[k] != []
    decreases |t|
  {
    if FirstWhitespace(t) < |t| {
      var w, tail := SplitParts(t);
      SplitMiddle(tail);
      SplitFirst(tail);
      assert tail == [] ==> SplitOnWhitespace(tail) == [[]];
      ConsMiddle(w, tail, SplitOnWhitespace(tail));
    }
  }

  lemma ConcatCons(w: string, rest: seq<string>)
    ensures Concat([w] + rest) == w + Concat(rest)
  {
    assert ([w] + rest)[1..] == rest;
  }

  /** The characters around one whitespace gap: the word, then the rest. */
  lemma NonSpaceAroundGap(w: string, gap: string, tail: string)
    requires NoWhitespace(w) && AllWhitespace(gap)
    ensures NonSpace(w + (gap + tail)) == w + NonSpace(tail)
  {
    NonSpaceConcat(gap, tail);
    NonSpaceOfSpaces(gap);
    assert NonSpace(gap + tail) == NonSpace(tail);
    NonSpaceConcat(w, gap + tail);
    NonSpaceOfWord(w);
  }

  /** One split step, middle pieces: the first piece of `rest` is a middle
      piece only when `tail` is non-empty, and then it starts with a word. */
  lemma ConsMiddle(w: string, tail: string, rest: seq<string>)
    requires |rest| >= 1
    requires tail == [] ==> rest == [[]]
    requires tail != [] ==> !IsWhitespace(tail[0])
    requires rest[0] == [] <==> tail == [] || IsWhitespace(tail[0])
    requires forall k :: 0 < k < |rest| - 1 ==> rest[k] != []
    ensures var r := [w] + rest; forall k :: 0 < k < |r| - 1 ==> r[k] != []
  {
    var r := [w] + rest;
    assert forall k :: 0 < k < |r| ==> r[k] == rest[k - 1];
  }

  /** Words counted independently: the starts of maximal non-whitespace
      runs, where `afterSpace` says whether the text is preceded by
      whitespace (or by nothing). */
  function WordStarts(s: string, afterSpace: bool): nat
  {
    if s == [] then 0
    else (if afterSpace && !IsWhitespace(s[0]) then 1 else 0) + WordStarts(s[1..], IsWhitespace(s[0]))
  }

  function CountWords(s: string): nat {
    WordStarts(s, true)
  }

  /** Whether the position after `s` is preceded by whitespace. */
  function SpaceAfter(s: string, afterSpace: bool): bool {
    if s == [] then afterSpace else IsWhitespace(s[|s| - 1])
  }

  lemma {:induction false} WordStartsConcat(a: string, b: string, f: bool)
    ensures WordStarts(a + b, f) == WordStarts(a, f) + WordStarts(b, SpaceAfter(a, f))
    decreases |a|
  {
    if a == [] {
      assert a + b == b;
    } else {
      assert (a + b)[0] == a[0];
      assert (a + b)[1..] == a[1..] + b;
      WordStartsConcat(a[1..], b, IsWhitespace(a[0]));
      if |a| > 1 {
        assert a[1..][|a[1..]| - 1] == a[|a| - 1];
      }
    }
  }

  lemma {:induction false} WordStartsOfSpaces(s: string, f: bool)
    requires AllWhitespace(s)
    ensures WordStarts(s, f) == 0
    ensures SpaceAfter(s, f) == (f || s != [])
    decreases |s|
  {
    if s != [] {
      WordStartsOfSpaces(s[1..], true);
    }
  }

  lemma {:induction false} WordStartsOfWord(s: string, f: bool)
    requires s != [] && NoWhitespace(s)
    ensures WordStarts(s, f) == (if f then 1 else 0)
    ensures !SpaceAfter(s, f)
    decreases |s|
  {
    if |s| > 1 {
      WordStartsOfWord(s[1..], false);
    }
  }

  /** For text that neither starts nor ends with whitespace, splitting on
      whitespace runs yields exactly its words. */
  lemma {:induction false} SplitCountsWords(t: string)
    requires t != [] && !IsWhitespace(t[0]) && !IsWhitespace(t[|t| - 1])
    ensures |SplitOnWhitespace(t)| == CountWords(t)
    decreases |t|
  {
    var i := FirstWhitespace(t);
    if i == |t| {
      WordStartsOfWord(t, true);
    } else {
      var j := RunEnd(t, i);
      var rest := t[j..];
      assert t == t[..i] + (t[i..j] + rest);
      WordStartsConcat(t[..i], t[i..j] + rest, true);
      WordStartsOfWord(t[..i], true);
      WordStartsConcat(t[i..j], rest, false);
      WordStartsOfSpaces(t[i..j], false);
      assert rest[0] == t[j] && rest[|rest| - 1] == t[|t| - 1];
      SplitCountsWords(rest);
    }
  }

  /** Trimming never changes the number of words. */
  lemma TrimKeepsWords(s: string)
    ensures CountWords(Trim(s)) == CountWords(s)
  {
    var r := Trim(s);
    var lo := LeadingSpaces(s);
    var head, tail := s[..lo], s[lo + |r|..];
    assert AllWhitespace(head) && AllWhitespace(tail);
    assert s == head + (r + tail);
    WordStartsConcat(head, r + tail, true);
    WordStartsOfSpaces(head, true);
    WordStartsConcat(r, tail, SpaceAfter(head, true));
    WordStartsOfSpaces(tail, SpaceAfter(r, SpaceAfter(head, true)));
  }

  /** `s.trim().split(/\s+/).length`. */
  function SplitWordCount(s: string): (n: nat)
    ensures n >= 1
  {
    |SplitOnWhitespace(Trim(s))|
  }

  /** The split-based count is the number of words, except that text with no
      words still counts as one. */
  lemma SplitWordCountIsWords(s: string)
    ensures SplitWordCount(s) == if CountWords(s) == 0 then 1 else CountWords(s)
  {
    var t := Trim(s);
    TrimKeepsWords(s);
    if t == [] {
      assert SplitOnWhitespace(t) == [t];
    } else {
      SplitCountsWords(t);
    }
  }

  /** A text made of `n` copies of a word followed by a space has `n` words. */
  function RepeatWord(w: string, n: nat): (s: string)
    requires w != [] && NoWhitespace(w)
    ensures CountWords(s) == n
  {
    if n == 0 then []
    else
      var s := w + " " + RepeatWord(w, n - 1);
      assert s == w + (" " + RepeatWord(w, n - 1));
      WordStartsConcat(w, " " + RepeatWord(w, n - 1), true);
      WordStartsOfWord(w, true);
      assert (" " + RepeatWord(w, n - 1))[1..] == RepeatWord(w, n - 1);
      s
  }

  // ------------------------------------------------------ lower-casing

  function LowerChar(c: char): (d: char)
    ensures !('A' <= d <= 'Z')
    ensures ('a' <= d <= 'z') ==> (c == d || c as int == d as int - 32)
  {
    if 'A' <= c <= 'Z' then (c as int + 32) as char else c
  }

  /** `toLowerCase` restricted to ASCII letters. */
  function Lower(s: string): (r: string)
    ensures |r| == |s|
    ensures forall i :: 0 <= i < |r| ==> r[i] == LowerChar(s[i])
  {
    if s == [] then [] else [LowerChar(s[0])] + Lower(s[1..])
  }

  /** Text without capital letters is its own lower-case form. */
  lemma LowerKeepsLowercase(s: string)
    requires forall i :: 0 <= i < |s| ==> !('A' <= s[i] <= 'Z')
    ensures Lower(s) == s
  {
    assert forall i :: 0 <= i < |s| ==> Lower(s)[i] == s[i];
  }

  /** Lower-casing is idempotent. */
  lemma LowerIdempotent(s: string)
    ensures Lower(Lower(s)) == Lower(s)
  {
    assert forall i :: 0 <= i < |s| ==> LowerChar(LowerChar(s[i])) == LowerChar(s[i]);
  }

  // --------------------------------------------------- substring search

  /** `h.includes(n)`. */
  function Contains(h: string, n: string): bool
    decreases |h|
  {
    n <= h || (h != [] && Contains(h[1..], n))
  }

  /** `Contains` holds exactly when `n` occurs at some offset of `h`. */
  lemma {:induction false} ContainsIffOccurs(h: string, n: string)
    ensures Contains(h, n) <==> exists i :: 0 <= i <= |h| && n <= h[i..]
    decreases |h|
  {
    if n <= h {
      assert h[0..] == h;
    } else if h == [] {
    } else {
      ContainsIffOccurs(h[1..], n);
      if Contains(h[1..], n) {
        var i :| 0 <= i <= |h[1..]| && n <= h[1..][i..];
        assert h[1..][i..] == h[i + 1..];
      } else {
        assert forall i :: 0 < i <= |h| ==> h[i..] == h[1..][i - 1..];
      }
    }
  }

  /** A needle found in either half is found in the whole. */
  lemma ContainsInConcat(a: string, b: string, n: string)
    ensures Contains(a, n) || Contains(b, n) ==> Contains(a + b, n)
  {
    ContainsIffOccurs(a, n);
    ContainsIffOccurs(b, n);
    ContainsIffOccurs(a + b, n);
    if Contains(a, n) {
      var i :| 0 <= i <= |a| && n <= a[i..];
      assert (a + b)[i..][..|n|] == a[i..][..|n|];
    } else if Contains(b, n) {
      var i :| 0 <= i <= |b| && n <= b[i..];
      assert (a + b)[|a| + i..] == b[i..];
    }
  }

  /** Every string contains itself. */
  lemma ContainsSelf(s: string)
    ensures Contains(s, s)
  {
    assert s <= s;
  }

  /** Substring containment is transitive. */
  lemma ContainsTransitive(a: string, b: string, c: string)
    requires Contains(a, b) && Contains(b, c)
    ensures Contains(a, c)
  {
    ContainsIffOccurs(a, b);
    ContainsIffOccurs(b, c);
    var i :| 0 <= i <= |a| && b <= a[i..];
    var j :| 0 <= j <= |b| && c <= b[j..];
    assert forall k :: 0 <= k < |c| ==> c[k] == b[j + k] == a[i + j + k];
    assert c <= a[i + j..];
    ContainsIffOccurs(a, c);
  }

  /** Lower-casing both sides keeps an occurrence. */
  lemma ContainsLower(h: string, n: string)
    requires Contains(h, n)
    ensures Contains(Lower(h), Lower(n))
  {
    ContainsIffOccurs(h, n);
    var i :| 0 <= i <= |h| && n <= h[i..];
    assert forall k :: 0 <= k < |n| ==> Lower(n)[k] == Lower(h)[i + k];
    assert Lower(n) <= Lower(h)[i..];
    ContainsIffOccurs(Lower(h), Lower(n));
  }

  // ------------------------------------------------ number formatting

  predicate IsDigit(c: char) { '0' <= c <= '9' }

  function DigitChar(d: nat): (c: char)
    requires d < 10
    ensures IsDigit(c) && c as int - '0' as int == d
  {
    ('0' as int + d) as char
  }

  /** The value of a string of decimal digits. */
  function DigitsValue(s: string): nat
    requires forall i :: 0 <= i < |s| ==> IsDigit(s[i])
  {
    if s == [] then 0
    else
      var d := s[|s| - 1];
      assert IsDigit(d);
      DigitsValue(s[..|s| - 1]) * 10 + (d as int - '0' as int)
  }

  /** Template-literal rendering of a non-negative integer: decimal digits
      with no leading zero. */
  function NatToString(n: nat): (r: string)
    ensures |r| >= 1
    ensures forall i :: 0 <= i < |r| ==> IsDigit(r[i])
    ensures |r| > 1 ==> r[0] != '0'
    ensures DigitsValue(r) == n
  {
    if n < 10 then [DigitChar(n)]
    else
      var r := NatToString(n / 10) + [DigitChar(n % 10)];
      assert r[..|r| - 1] == NatToString(n / 10);
      r
  }

  // ----------------------------------------------- code-point order

  /** `a` sorts strictly before `b` under the default `sort` comparison:
      first differing character, a proper prefix first. */
  predicate StringLess(a: string, b: string)
    decreases |a|
  {
    if a == [] then b != []
    else if b == [] then false
    else if a[0] != b[0] then a[0] < b[0]
    else StringLess(a[1..], b[1..])
  }

  lemma {:induction false} StringLessIrreflexive(a: string)
    ensures !StringLess(a, a)
    decreases |a|
  {
    if a != [] {
      StringLessIrreflexive(a[1..]);
    }
  }

  lemma {:induction false} StringLessTransitive(a: string, b: string, c: string)
    requires StringLess(a, b) && StringLess(b, c)
    ensures StringLess(a, c)
    decreases |a|
  {
    if a != [] && a[0] == b[0] && b[0] == c[0] {
      StringLessTransitive(a[1..], b[1..], c[1..]);
    }
  }

  lemma {:induction false} StringLessTotal(a: string, b: string)
    requires a != b
    ensures StringLess(a, b) || StringLess(b, a)
    decreases |a|
  {
    if a != [] && b != [] && a[0] == b[0] {
      assert a == [a[0]] + a[1..] && b == [b[0]] + b[1..];
      StringLessTotal(a[1..], b[1..]);
    }
  }

  lemma {:induction false} StringLessAsymmetric(a: string, b: string)
    ensures StringLess(a, b) ==> !StringLess(b, a)
    decreases |a|
  {
    if a != [] && b != [] && a[0] == b[0] {
      StringLessAsymmetric(a[1..], b[1..]);
    }
  }
}
