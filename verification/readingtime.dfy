/** `calculateReadingTime`: the word count of the trimmed body at 200
    words per minute, rounded up, rendered as "<n> min read".  The three
    repository variants define it identically. */
module ReadingTime {
  import opened Text

  const WordsPerMinute: nat := 200
  const Suffix: string := " min read"

  /** `Math.ceil(words / 200)` where `words` is the split-based count.
      Measured against the independent word count: text without words
      still counts as one word. */
  function Minutes(s: string): (m: nat)
    ensures m >= 1
    ensures var w := if CountWords(s) == 0 then 1 else CountWords(s);
            (m - 1) * WordsPerMinute < w <= m * WordsPerMinute
  {
    SplitWordCountIsWords(s);
    (SplitWordCount(s) + WordsPerMinute - 1) / WordsPerMinute
  }

  /** The rendered reading time: a decimal number that reads back as the
      minute count, followed by " min read". */
  function CalculateReadingTime(s: string): (r: string)
    ensures |r| > |Suffix| && r[|r| - |Suffix|..] == Suffix
    ensures var digits := r[..|r| - |Suffix|];
            && |digits| >= 1
            && (forall i :: 0 <= i < |digits| ==> IsDigit(digits[i]))
            && (|digits| > 1 ==> digits[0] != '0')
            && DigitsValue(digits) == Minutes(s)
  {
    var n := NatToString(Minutes(s));
    assert (n + Suffix)[..|n|] == n;
    n + Suffix
  }

  /** Empty and blank bodies read in one minute. */
  lemma BlankTextReadsInOneMinute(s: string)
    requires AllWhitespace(s)
    ensures CalculateReadingTime(s) == "1 min read"
  {
    assert CountWords(s) == 0 by {
      TrimKeepsWords(s);
    }
    assert Minutes(s) == 1;
  }

  /** A single word reads in one minute. */
  lemma OneWordReadsInOneMinute()
    ensures CalculateReadingTime("hello") == "1 min read"
  {
    var s := "hello";
    assert CountWords(s) == 1 by {
      assert NoWhitespace(s);
      WordStartsOfWord(s, true);
    }
    UpTo200WordsReadInOneMinute(s);
  }

  /** Up to 200 words read in one minute. */
  lemma UpTo200WordsReadInOneMinute(s: string)
    requires CountWords(s) <= 200
    ensures CalculateReadingTime(s) == "1 min read"
  {
    assert Minutes(s) == 1;
  }

  /** From 201 to 400 words read in two minutes. */
  lemma From201To400WordsReadInTwoMinutes(s: string)
    requires 200 < CountWords(s) <= 400
    ensures CalculateReadingTime(s) == "2 min read"
  {
    assert Minutes(s) == 2;
  }

  /** Any body of exactly 400 words reads in two minutes. */
  lemma FourHundredWordsReadInTwoMinutes(s: string)
    requires CountWords(s) == 400
    ensures CalculateReadingTime(s) == "2 min read"
  {
    From201To400WordsReadInTwoMinutes(s);
  }

  /** Four hundred repetitions of one word read in two minutes. */
  lemma RepeatedWordReadsInTwoMinutes()
    ensures CalculateReadingTime(RepeatWord("word", 400)) == "2 min read"
  {
    FourHundredWordsReadInTwoMinutes(RepeatWord("word", 400));
  }

  /** 200 words still fit in one minute and 201 do not. */
  lemma MinuteBoundary(s: string, t: string)
    requires CountWords(s) == 200 && CountWords(t) == 201
    ensures CalculateReadingTime(s) == "1 min read"
    ensures CalculateReadingTime(t) == "2 min read"
  {
    UpTo200WordsReadInOneMinute(s);
    From201To400WordsReadInTwoMinutes(t);
  }
}
