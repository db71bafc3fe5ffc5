/**
 * Reading-time estimate of a blog body (estimate_read_time in manage_blogs.py):
 * count the whitespace-separated words, divide by 200 words per minute rounding
 * up, and format the result as "<N> min read". Absent or empty text has no estimate.
 */
module ReadTime {
  import opened Wrappers

  /** Average reading speed assumed by the estimate, in words per minute. */
  const WordsPerMinute: nat := 200

  /** The text that follows the minute count in a formatted estimate. */
  const Suffix: string := " min read"

  // ---------------------------------------------------------------------------
  // Words
  // ---------------------------------------------------------------------------

  /**
   * Whitespace as Python's str.isspace() defines it; str.split() with no
   * separator splits on exactly these code points.
   */
  predicate IsSpace(c: char) {
    var n := c as int;
    || 0x09 <= n <= 0x0D
    || 0x1C <= n <= 0x20
    || n == 0x85 || n == 0xA0 || n == 0x1680
    || 0x2000 <= n <= 0x200A
    || n == 0x2028 || n == 0x2029 || n == 0x202F || n == 0x205F || n == 0x3000
  }

  /** The longest prefix of s that holds no whitespace. */
  function LeadingWord(s: string): (w: string)
    ensures w <= s
    ensures forall i :: 0 <= i < |w| ==> !IsSpace(w[i])
    ensures |w| < |s| ==> IsSpace(s[|w|])
  {
    if s == [] || IsSpace(s[0]) then [] else [s[0]] + LeadingWord(s[1..])
  }

  /**
   * The words of s, as Python's s.split() returns them: maximal runs of
   * non-whitespace characters, in order.
   */
  function Split(s: string): (words: seq<string>)
    ensures forall k :: 0 <= k < |words| ==> words[k] != []
    ensures forall k, i :: 0 <= k < |words| && 0 <= i < |words[k]| ==> !IsSpace(words[k][i])
    decreases |s|
  {
    if s == [] then []
    else if IsSpace(s[0]) then Split(s[1..])
    else
      var w := LeadingWord(s);
      [w] + Split(s[|w|..])
  }

  /** len(text.split()). */
  function WordCount(s: string): nat {
    |Split(s)|
  }

  /** Position i begins a word: it holds a non-whitespace character that is first or follows whitespace. */
  predicate StartsWord(s: string, i: nat)
    requires i < |s|
  {
    !IsSpace(s[i]) && (i == 0 || IsSpace(s[i - 1]))
  }

  /** The number of word beginnings at positions i and later: a reference count of words independent of Split. */
  function StartsFrom(s: string, i: nat): nat
    requires i <= |s|
    decreases |s| - i
  {
    if i == |s| then 0 else (if StartsWord(s, i) then 1 else 0) + StartsFrom(s, i + 1)
  }

  /** Inside a run of non-whitespace no position begins a word. */
  lemma {:induction false} NoStartsWithin(s: string, lo: nat, hi: nat)
    requires 1 <= lo <= hi <= |s|
    requires forall j :: lo - 1 <= j < hi - 1 ==> !IsSpace(s[j])
    ensures StartsFrom(s, lo) == StartsFrom(s, hi)
    decreases hi - lo
  {
    if lo < hi {
      NoStartsWithin(s, lo + 1, hi);
    }
  }

  lemma {:induction false} SplitCountsStartsFrom(s: string, i: nat)
    requires i <= |s|
    requires i == 0 || IsSpace(s[i - 1])
    ensures |Split(s[i..])| == StartsFrom(s, i)
    decreases |s| - i
  {
    var t := s[i..];
    if i == |s| {
      assert t == [];
    } else if IsSpace(s[i]) {
      assert t[1..] == s[i + 1..];
      SplitCountsStartsFrom(s, i + 1);
    } else {
      var w := LeadingWord(t);
      var k := |w|;
      assert k >= 1;
      forall j | i <= j < i + k ensures !IsSpace(s[j]) {
        assert s[j] == t[j - i] == w[j - i];
      }
      NoStartsWithin(s, i + 1, i + k);
      assert Split(t) == [w] + Split(t[k..]);
      if i + k == |s| {
        assert t[k..] == [];
      } else {
        assert IsSpace(s[i + k]);
        assert t[k..][1..] == s[i + k + 1..];
        SplitCountsStartsFrom(s, i + k + 1);
      }
    }
  }

  /** The number of words Split finds is the number of positions that begin a word. */
  lemma WordCountIsWordStarts(s: string)
    ensures WordCount(s) == StartsFrom(s, 0)
  {
    assert s[0..] == s;
    SplitCountsStartsFrom(s, 0);
  }

  /** Text has no words exactly when every character in it is whitespace. */
  lemma {:induction false} NoWordsIffAllSpace(s: string)
    ensures Split(s) == [] <==> forall i :: 0 <= i < |s| ==> IsSpace(s[i])
    decreases |s|
  {
    if s != [] && IsSpace(s[0]) {
      NoWordsIffAllSpace(s[1..]);
      assert forall i :: 1 <= i < |s| ==> s[i] == s[1..][i - 1];
    }
  }

  // ---------------------------------------------------------------------------
  // Minutes
  // ---------------------------------------------------------------------------

  /** math.ceil(words / 200), computed on integers. */
  function Minutes(words: nat): (m: nat)
    ensures WordsPerMinute * m >= words
    ensures m > 0 ==> WordsPerMinute * (m - 1) < words
  {
    (words + WordsPerMinute - 1) / WordsPerMinute
  }

  /** The minute count is the least n with 200 * n >= words. */
  lemma MinutesIsLeast(words: nat, n: nat)
    requires WordsPerMinute * n >= words
    ensures Minutes(words) <= n
  {
  }

  lemma MinutesBoundaries(words: nat)
    ensures words == 0 ==> Minutes(words) == 0
    ensures 1 <= words <= 200 ==> Minutes(words) == 1
    ensures 201 <= words <= 400 ==> Minutes(words) == 2
  {
  }

  // ---------------------------------------------------------------------------
  // Formatting
  // ---------------------------------------------------------------------------

  predicate IsDigit(c: char) {
    '0' <= c <= '9'
  }

  function DigitChar(d: nat): (c: char)
    requires d < 10
    ensures IsDigit(c) && (c as int) - ('0' as int) == d
  {
    (('0' as int) + d) as char
  }

  /** The decimal numeral of n, as Python's f"{n}" writes it. */
  function NatToString(n: nat): (s: string)
    ensures |s| >= 1
    ensures forall i :: 0 <= i < |s| ==> IsDigit(s[i])
    ensures s[0] == '0' ==> n == 0
    decreases n
  {
    if n < 10 then [DigitChar(n)] else NatToString(n / 10) + [DigitChar(n % 10)]
  }

  function DigitValue(c: char): (d: nat)
    requires IsDigit(c)
    ensures d < 10
  {
    (c as int) - ('0' as int)
  }

  /** The value of a string of decimal digits. */
  function ParseNat(s: string): nat
    requires forall i :: 0 <= i < |s| ==> IsDigit(s[i])
  {
    if s == [] then 0
    else 10 * ParseNat(s[..|s| - 1]) + DigitValue(s[|s| - 1])
  }

  lemma {:induction false} NatToStringRoundTrip(n: nat)
    ensures ParseNat(NatToString(n)) == n
    decreases n
  {
    if n >= 10 {
      var p := NatToString(n / 10);
      var s := NatToString(n);
      assert s[..|s| - 1] == p;
      NatToStringRoundTrip(n / 10);
    }
  }

  /** f"{minutes} min read". */
  function FormatReadTime(minutes: nat): string {
    NatToString(minutes) + Suffix
  }

  /** Reads back the minute count of a string shaped "<digits> min read". */
  function ParseReadTime(s: string): Option<nat> {
    if |s| > |Suffix| && s[|s| - |Suffix|..] == Suffix
       && forall i :: 0 <= i < |s| - |Suffix| ==> IsDigit(s[i])
    then Some(ParseNat(s[..|s| - |Suffix|]))
    else None
  }

  /** A formatted estimate gives back its minute count, so distinct counts format differently. */
  lemma ReadTimeRoundTrip(minutes: nat)
    ensures ParseReadTime(FormatReadTime(minutes)) == Some(minutes)
  {
    var d := NatToString(minutes);
    var s := FormatReadTime(minutes);
    assert s[..|s| - |Suffix|] == d;
    assert s[|s| - |Suffix|..] == Suffix;
    NatToStringRoundTrip(minutes);
  }

  lemma FormatReadTimeInjective(m: nat, n: nat)
    requires FormatReadTime(m) == FormatReadTime(n)
    ensures m == n
  {
    ReadTimeRoundTrip(m);
    ReadTimeRoundTrip(n);
  }

  // ---------------------------------------------------------------------------
  // The estimate
  // ---------------------------------------------------------------------------

  /** estimate_read_time(text): None for absent or empty text, else "<minutes> min read". */
  function EstimateReadTime(text: Option<string>): (r: Option<string>)
    ensures r == None <==> text == None || text.value == []
  {
    if text == None || text.value == [] then None
    else Some(FormatReadTime(Minutes(WordCount(text.value))))
  }

  /**
   * For non-empty text the estimate reads back as the least whole number of
   * minutes n with 200 * n at least the number of words, words counted by
   * where they begin.
   */
  lemma EstimateMeaning(s: string, n: nat)
    requires s != []
    ensures EstimateReadTime(Some(s)).Some?
    ensures ParseReadTime(EstimateReadTime(Some(s)).value) == Some(Minutes(StartsFrom(s, 0)))
    ensures WordsPerMinute * n >= StartsFrom(s, 0) ==> Minutes(StartsFrom(s, 0)) <= n
  {
    WordCountIsWordStarts(s);
    ReadTimeRoundTrip(Minutes(WordCount(s)));
  }

  /** 1 to 200 words read in one minute, 201 to 400 in two. */
  lemma EstimateBoundaries(s: string)
    ensures 1 <= WordCount(s) <= 200 ==> EstimateReadTime(Some(s)) == Some("1 min read")
    ensures 201 <= WordCount(s) <= 400 ==> EstimateReadTime(Some(s)) == Some("2 min read")
  {
    if WordCount(s) >= 1 {
      assert s != [];
      MinutesBoundaries(WordCount(s));
      assert FormatReadTime(1) == "1 min read" by { assert NatToString(1) == "1"; }
      assert FormatReadTime(2) == "2 min read" by { assert NatToString(2) == "2"; }
    }
  }

  /** Non-empty text made only of whitespace has zero words: "0 min read", not None. */
  lemma WhitespaceOnlyIsZeroMinutes(s: string)
    requires s != []
    requires forall i :: 0 <= i < |s| ==> IsSpace(s[i])
    ensures EstimateReadTime(Some(s)) == Some("0 min read")
  {
    NoWordsIffAllSpace(s);
    assert FormatReadTime(0) == "0 min read" by { assert NatToString(0) == "0"; }
  }
}
