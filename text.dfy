/** The handful of Python string operations the statistics script relies on:
    `str.split()` with no separator, `str(int)`, the `<4` format spec, `str.lower()`
    and single-character `str.replace`. */
module Text {

  /** The characters for which Python's `str.isspace()` holds: the separators
      `str.split()` uses. */
  const SpaceChars: set<char> := {
    '\t', '\n', '\U{B}', '\U{C}', '\r',
    '\U{1C}', '\U{1D}', '\U{1E}', '\U{1F}', ' ',
    '\U{85}', '\U{A0}', '\U{1680}',
    '\U{2000}', '\U{2001}', '\U{2002}', '\U{2003}', '\U{2004}', '\U{2005}',
    '\U{2006}', '\U{2007}', '\U{2008}', '\U{2009}', '\U{200A}',
    '\U{2028}', '\U{2029}', '\U{202F}', '\U{205F}', '\U{3000}'
  }

  predicate IsSpace(c: char)
  {
    c in SpaceChars
  }

  ghost predicate AllSpace(s: string)
  {
    forall i :: 0 <= i < |s| ==> IsSpace(s[i])
  }

  /** A non-empty run of characters none of which is whitespace. */
  ghost predicate IsWord(w: string)
  {
    w != [] && forall i :: 0 <= i < |w| ==> !IsSpace(w[i])
  }

  /** The first position at or after `i` that holds no whitespace, or `|s|`. */
  function SkipSpace(s: string, i: nat): (r: nat)
    requires i <= |s|
    ensures i <= r <= |s|
    ensures forall j :: i <= j < r ==> IsSpace(s[j])
    ensures r == |s| || !IsSpace(s[r])
    decreases |s| - i
  {
    if i < |s| && IsSpace(s[i]) then SkipSpace(s, i + 1) else i
  }

  /** The first position at or after `i` that holds whitespace, or `|s|`. */
  function SkipWord(s: string, i: nat): (r: nat)
    requires i <= |s|
    ensures i <= r <= |s|
    ensures forall j :: i <= j < r ==> !IsSpace(s[j])
    ensures r == |s| || IsSpace(s[r])
    decreases |s| - i
  {
    if i < |s| && !IsSpace(s[i]) then SkipWord(s, i + 1) else i
  }

  /** The pieces of `s.split()` that start at or after position `i`. */
  function SplitFrom(s: string, i: nat): seq<string>
    requires i <= |s|
    decreases |s| - i
  {
    var a := SkipSpace(s, i);
    if a == |s| then []
    else
      var b := SkipWord(s, a);
      [s[a..b]] + SplitFrom(s, b)
  }

  /** Python's `s.split()`: the maximal runs of non-whitespace characters, in order;
      leading and trailing whitespace produce no empty pieces. */
  function Split(s: string): seq<string>
  {
    SplitFrom(s, 0)
  }

  lemma {:induction false} SplitFromWords(s: string, i: nat)
    requires i <= |s|
    ensures forall k :: 0 <= k < |SplitFrom(s, i)| ==> IsWord(SplitFrom(s, i)[k])
    decreases |s| - i
  {
    var a := SkipSpace(s, i);
    if a < |s| {
      var b := SkipWord(s, a);
      SplitFromWords(s, b);
      var w := s[a..b];
      assert forall j :: 0 <= j < |w| ==> w[j] == s[a + j];
    }
  }

  /** Every piece of `s.split()` is a word. */
  lemma SplitWords(s: string)
    ensures forall k :: 0 <= k < |Split(s)| ==> IsWord(Split(s)[k])
  {
    SplitFromWords(s, 0);
  }

  /** `w` is the first piece of `s.split()`, found after `k` whitespace characters:
      `s` is whitespace, then `w`, then either the end or more whitespace. */
  ghost predicate IsFirstWord(s: string, k: nat, w: string)
  {
    && w != []
    && k + |w| <= |s|
    && (forall i :: 0 <= i < k ==> IsSpace(s[i]))
    && (forall i :: 0 <= i < |w| ==> s[k + i] == w[i] && !IsSpace(w[i]))
    && (k + |w| == |s| || IsSpace(s[k + |w|]))
  }

  /** Where the first piece of `s.split()` starts. */
  function FirstWordStart(s: string): nat
  {
    SkipSpace(s, 0)
  }

  lemma SplitEmpty(s: string)
    ensures Split(s) == [] <==> AllSpace(s)
  {
  }

  /** Whitespace up to `n`, then non-whitespace up to `n + m`, then whitespace or the
      end: the word is the first word. */
  lemma WordAfterSpaces(s: string, n: nat, m: nat)
    requires 0 < m && n + m <= |s|
    requires forall i :: 0 <= i < n ==> IsSpace(s[i])
    requires forall i :: n <= i < n + m ==> !IsSpace(s[i])
    requires n + m == |s| || IsSpace(s[n + m])
    ensures IsFirstWord(s, n, s[n..n + m])
  {
    var w := s[n..n + m];
    assert forall i :: 0 <= i < m ==> s[n + i] == w[i];
  }

  lemma SplitFirstIsFirstWord(s: string)
    requires Split(s) != []
    ensures IsFirstWord(s, FirstWordStart(s), Split(s)[0])
  {
    var a := SkipSpace(s, 0);
    var b := SkipWord(s, a);
    assert Split(s)[0] == s[a..b];
    WordAfterSpaces(s, a, b - a);
  }

  lemma FirstWordIsSplitFirst(s: string, k: nat, w: string)
    requires IsFirstWord(s, k, w)
    ensures Split(s) != [] && Split(s)[0] == w && k == FirstWordStart(s)
  {
    assert !IsSpace(s[k]) by { assert s[k + 0] == w[0]; }
    assert k == SkipSpace(s, 0);
    forall i | k <= i < k + |w| ensures !IsSpace(s[i]) {
      assert s[k + (i - k)] == w[i - k];
    }
    assert SkipWord(s, k) == k + |w|;
    var sub := s[k..k + |w|];
    forall i | 0 <= i < |w| ensures sub[i] == w[i] {
      assert sub[i] == s[k + i];
    }
    assert sub == w;
  }

  /** `s.split()` is empty exactly when `s` is all whitespace, and otherwise its first
      piece is the one and only word that `IsFirstWord` describes. */
  lemma FirstWordOfSplit(s: string, k: nat, w: string)
    ensures Split(s) == [] <==> AllSpace(s)
    ensures IsFirstWord(s, k, w) <==> Split(s) != [] && Split(s)[0] == w && k == FirstWordStart(s)
  {
    SplitEmpty(s);
    if IsFirstWord(s, k, w) {
      FirstWordIsSplitFirst(s, k, w);
    }
    if Split(s) != [] && Split(s)[0] == w && k == FirstWordStart(s) {
      SplitFirstIsFirstWord(s);
    }
  }

  /** The decimal digit for `d`. */
  function DigitChar(d: nat): (c: char)
    requires d < 10
    ensures '0' <= c <= '9'
  {
    ('0' as int + d) as char
  }

  predicate IsDigit(c: char)
  {
    '0' <= c <= '9'
  }

  function DigitValue(c: char): (d: nat)
    requires IsDigit(c)
    ensures d < 10 && DigitChar(d) == c
  {
    c as int - '0' as int
  }

  /** Python's `str(n)` for a non-negative integer. */
  function Decimal(n: nat): (r: string)
    ensures r != []
    ensures forall i :: 0 <= i < |r| ==> IsDigit(r[i])
    ensures r[0] == '0' ==> n == 0
  {
    if n < 10 then [DigitChar(n)] else Decimal(n / 10) + [DigitChar(n % 10)]
  }

  /** The value of a string of decimal digits, as Python's `int(s)` reads it. */
  function ParseDecimal(s: string): nat
    requires forall i :: 0 <= i < |s| ==> IsDigit(s[i])
  {
    if s == [] then 0 else 10 * ParseDecimal(s[..|s| - 1]) + DigitValue(s[|s| - 1])
  }

  lemma {:induction false} DecimalRoundTrip(n: nat)
    ensures ParseDecimal(Decimal(n)) == n
  {
    if n >= 10 {
      var r := Decimal(n);
      assert r[..|r| - 1] == Decimal(n / 10);
      DecimalRoundTrip(n / 10);
    }
  }

  /** The first position at or after `i` that holds no decimal digit, or `|s|`. */
  function SkipDigits(s: string, i: nat): (r: nat)
    requires i <= |s|
    ensures i <= r <= |s|
    ensures forall j :: i <= j < r ==> IsDigit(s[j])
    ensures r == |s| || !IsDigit(s[r])
    decreases |s| - i
  {
    if i < |s| && IsDigit(s[i]) then SkipDigits(s, i + 1) else i
  }

  function Spaces(n: nat): (r: string)
    ensures |r| == n && forall i :: 0 <= i < n ==> r[i] == ' '
  {
    if n == 0 then [] else Spaces(n - 1) + [' ']
  }

  /** Python's `format(s, '<w')`: `s` padded on the right with spaces to at least `width`
      characters, never cut. */
  function LeftAlign(s: string, width: nat): (r: string)
    ensures |r| == if |s| < width then width else |s|
    ensures r[..|s|] == s
    ensures forall i :: |s| <= i < |r| ==> r[i] == ' '
  {
    if |s| < width then s + Spaces(width - |s|) else s
  }

  /** `str.lower()` on one character, for ASCII letters only (see README, Left out). */
  function LowerChar(c: char): char
  {
    if 'A' <= c <= 'Z' then (c as int - 'A' as int + 'a' as int) as char else c
  }

  function Lower(s: string): (r: string)
    ensures |r| == |s|
    ensures forall i :: 0 <= i < |s| ==> r[i] == LowerChar(s[i])
  {
    if s == [] then [] else Lower(s[..|s| - 1]) + [LowerChar(s[|s| - 1])]
  }

  /** `s.replace(a, b)` for one-character `a` and `b`. */
  function Replace(s: string, a: char, b: char): (r: string)
    ensures |r| == |s|
    ensures forall i :: 0 <= i < |s| ==> r[i] == if s[i] == a then b else s[i]
  {
    if s == [] then [] else Replace(s[..|s| - 1], a, b) + [if s[|s| - 1] == a then b else s[|s| - 1]]
  }

  /** Position of the first `c` in `s` at or after `i`, or `|s|` when there is none. */
  function Find(s: string, c: char, i: nat): (r: nat)
    requires i <= |s|
    ensures i <= r <= |s|
    ensures r < |s| ==> s[r] == c
    ensures forall j :: i <= j < r ==> s[j] != c
    decreases |s| - i
  {
    if i == |s| || s[i] == c then i else Find(s, c, i + 1)
  }
}
