/** The handful of JVM string operations the client relies on:
    `indexOf`, `contains`, `trim { it <= ' ' }`, splitting on a single
    character, `joinToString`-style joining and `Int.toString()`. */
module Strings {

  /** `pat` occurs in `s` starting at index `k`. */
  predicate OccursAt(s: string, pat: string, k: int)
  {
    0 <= k && k + |pat| <= |s| && s[k..k + |pat|] == pat
  }

  /** `s.indexOf(pat, from)` for a non-empty pattern: the first index at or
      after `from` where `pat` occurs, or -1 when there is none. */
  function IndexOf(s: string, pat: string, from: nat): (r: int)
    requires |pat| > 0
    ensures r == -1 || (from <= r && OccursAt(s, pat, r))
    ensures r == -1 <==> forall k :: from <= k ==> !OccursAt(s, pat, k)
    ensures r >= 0 ==> forall k :: from <= k < r ==> !OccursAt(s, pat, k)
    decreases |s| - from
  {
    if from + |pat| > |s| then -1
    else if s[from..from + |pat|] == pat then from
    else IndexOf(s, pat, from + 1)
  }

  /** `s.contains(pat)`. */
  predicate Contains(s: string, pat: string)
  {
    exists k :: 0 <= k <= |s| - |pat| && OccursAt(s, pat, k)
  }

  /** The executable form of `contains` agrees with its definition. */
  lemma IndexOfFindsContains(s: string, pat: string)
    requires |pat| > 0
    ensures IndexOf(s, pat, 0) >= 0 <==> Contains(s, pat)
  {
    if IndexOf(s, pat, 0) >= 0 {
      assert OccursAt(s, pat, IndexOf(s, pat, 0));
    }
  }

  /** The characters removed by Kotlin's `trim { it <= ' ' }`. */
  predicate IsBlank(c: char)
  {
    c <= ' '
  }

  /** The first index at or after `i` that holds a non-blank character,
      or `|s|`: where `trim` starts. */
  function SkipBlanks(s: string, i: nat): (j: nat)
    requires i <= |s|
    ensures i <= j <= |s|
    ensures forall k :: i <= k < j ==> IsBlank(s[k])
    ensures j < |s| ==> !IsBlank(s[j])
    decreases |s| - i
  {
    if i < |s| && IsBlank(s[i]) then SkipBlanks(s, i + 1) else i
  }

  /** The end of `s[lo..j]` once trailing blanks are dropped: where `trim`
      ends. */
  function DropBlanks(s: string, lo: nat, j: nat): (e: nat)
    requires lo <= j <= |s|
    ensures lo <= e <= j
    ensures forall k :: e <= k < j ==> IsBlank(s[k])
    ensures e > lo ==> !IsBlank(s[e - 1])
    decreases j
  {
    if j > lo && IsBlank(s[j - 1]) then DropBlanks(s, lo, j - 1) else j
  }

  /** `r` is the slice of `s` starting at `a`, and everything of `s`
      outside that slice is blank. */
  predicate BlankPaddedSlice(s: string, r: string, a: int)
  {
    && 0 <= a && a + |r| <= |s| && r == s[a..a + |r|]
    && (forall i :: 0 <= i < a ==> IsBlank(s[i]))
    && (forall i :: a + |r| <= i < |s| ==> IsBlank(s[i]))
  }

  /** `s.trim { it <= ' ' }`: the slice of `s` left once blanks are peeled
      off both ends. */
  function Trim(s: string): (r: string)
    ensures |r| == 0 || (!IsBlank(r[0]) && !IsBlank(r[|r| - 1]))
    ensures BlankPaddedSlice(s, r, SkipBlanks(s, 0))
  {
    var a := SkipBlanks(s, 0);
    s[a..DropBlanks(s, a, |s|)]
  }

  /** A string that neither starts nor ends with a blank is its own trim. */
  lemma TrimOfTrimmed(s: string)
    requires |s| == 0 || (!IsBlank(s[0]) && !IsBlank(s[|s| - 1]))
    ensures Trim(s) == s
  {
  }

  /** Trimming twice is trimming once. */
  lemma TrimIdempotent(s: string)
    ensures Trim(Trim(s)) == Trim(s)
  {
    TrimOfTrimmed(Trim(s));
  }

  /** The index of the first `c` in `s`, or `|s|` when there is none. */
  function FirstIndexOfChar(s: string, c: char): (k: nat)
    ensures k <= |s|
    ensures k < |s| ==> s[k] == c
    ensures c !in s[..k]
  {
    if |s| == 0 then 0
    else if s[0] == c then 0
    else 1 + FirstIndexOfChar(s[1..], c)
  }

  /** `items` joined with `sep` between neighbours and nowhere else. */
  function Join(sep: string, items: seq<string>): string
  {
    if |items| == 0 then ""
    else if |items| == 1 then items[0]
    else items[0] + sep + Join(sep, items[1..])
  }

  /** Sum of the lengths of `items`. */
  function TotalLength(items: seq<string>): nat
  {
    if |items| == 0 then 0 else |items[0]| + TotalLength(items[1..])
  }

  /** A join of `n` items has exactly `n - 1` separators. */
  lemma {:induction false} JoinLength(sep: string, items: seq<string>)
    ensures |Join(sep, items)| == TotalLength(items) + (if |items| == 0 then 0 else (|items| - 1) * |sep|)
  {
    if |items| > 1 {
      JoinLength(sep, items[1..]);
    }
  }

  /** Appending one more item appends one separator and the item. */
  lemma {:induction false} JoinSnoc(sep: string, items: seq<string>, x: string)
    requires |items| > 0
    ensures Join(sep, items + [x]) == Join(sep, items) + sep + x
  {
    if |items| == 1 {
      assert items + [x] == [items[0], x];
    } else {
      assert (items + [x])[1..] == items[1..] + [x];
      JoinSnoc(sep, items[1..], x);
    }
  }

  /** Kotlin `s.split(" ".toRegex())` for a one-character delimiter: every
      delimiter separates two pieces, so empty pieces are kept. */
  function SplitOn(s: string, d: char): (r: seq<string>)
    ensures |r| >= 1
    ensures forall i :: 0 <= i < |r| ==> d !in r[i]
    ensures Join([d], r) == s
    decreases |s|
  {
    var k := FirstIndexOfChar(s, d);
    if k == |s| then
      assert s[..k] == s;
      [s]
    else
      var rest := SplitOn(s[k + 1..], d);
      assert s == s[..k] + [d] + s[k + 1..];
      [s[..k]] + rest
  }

  /** `dropLastWhile { it.isEmpty() }`. */
  function DropTrailingEmpty(xs: seq<string>): (r: seq<string>)
    ensures |r| <= |xs| && r == xs[..|r|]
    ensures |r| == 0 || r[|r| - 1] != ""
    ensures forall i :: |r| <= i < |xs| ==> xs[i] == ""
  {
    if |xs| > 0 && xs[|xs| - 1] == "" then DropTrailingEmpty(xs[..|xs| - 1]) else xs
  }

  /** The decimal digit for `d`. */
  function Digit(d: nat): char
    requires d < 10
  {
    "0123456789"[d]
  }

  predicate IsDigit(c: char)
  {
    '0' <= c <= '9'
  }

  /** The UTF-16 code units of one character: two (a surrogate pair)
      outside the Basic Multilingual Plane, one inside it. */
  function Utf16Units(c: char): nat
  {
    if c as int > 0xFFFF then 2 else 1
  }

  /** Kotlin's `String.length`, which counts UTF-16 code units; a Dafny
      string counts characters. The two agree exactly when no character
      lies outside the Basic Multilingual Plane. */
  function Utf16Length(s: string): (n: nat)
    ensures |s| <= n <= 2 * |s|
    ensures n == |s| <==> forall i :: 0 <= i < |s| ==> s[i] as int <= 0xFFFF
  {
    if |s| == 0 then 0 else Utf16Units(s[0]) + Utf16Length(s[1..])
  }

  /** One emoji is one character but two UTF-16 code units. */
  lemma Utf16Example()
    ensures |"\U{1F600}"| == 1 && Utf16Length("\U{1F600}") == 2
    ensures Utf16Length("abc") == 3
  {
    assert "\U{1F600}"[1..] == "";
  }

  /** `n.toString()` for a non-negative `Int`. */
  function DecimalString(n: nat): (r: string)
    ensures |r| > 0
    ensures forall i :: 0 <= i < |r| ==> IsDigit(r[i])
  {
    if n < 10 then [Digit(n)] else DecimalString(n / 10) + [Digit(n % 10)]
  }

  /** The value of a string of decimal digits. */
  function DecimalValue(s: string): nat
    requires forall i :: 0 <= i < |s| ==> IsDigit(s[i])
  {
    if |s| == 0 then 0
    else
      assert IsDigit(s[|s| - 1]);
      10 * DecimalValue(s[..|s| - 1]) + (s[|s| - 1] as int - '0' as int)
  }

  /** Reading a rendered number gives the number back. */
  lemma {:induction false} DecimalRoundTrip(n: nat)
    ensures DecimalValue(DecimalString(n)) == n
  {
    if n >= 10 {
      var s := DecimalString(n);
      assert s[..|s| - 1] == DecimalString(n / 10);
      DecimalRoundTrip(n / 10);
    }
  }
}
