/**
 * The string operations of Python's str that the core uses: strip, lower,
 * upper, the substring test `w in s`, split on a separator, and decimal
 * formatting of integers with zero padding.
 */
module Text {
  import opened Outcomes

  /** The characters str.isspace() accepts, which str.strip() removes when given no argument. */
  const Whitespace: set<char> :=
    {'\t', '\n', '\U{000B}', '\U{000C}', '\r', '\U{001C}', '\U{001D}', '\U{001E}', '\U{001F}', ' ',
     '\U{0085}', '\U{00A0}', '\U{1680}', '\U{2000}', '\U{2001}', '\U{2002}', '\U{2003}', '\U{2004}',
     '\U{2005}', '\U{2006}', '\U{2007}', '\U{2008}', '\U{2009}', '\U{200A}', '\U{2028}', '\U{2029}',
     '\U{202F}', '\U{205F}', '\U{3000}'}

  /** s.lstrip(cs) */
  function StripLeft(s: string, cs: set<char>): (r: string)
    ensures |r| <= |s| && r == s[|s| - |r|..]
    ensures r == [] || r[0] !in cs
  {
    if s != [] && s[0] in cs then StripLeft(s[1..], cs) else s
  }

  /** s.rstrip(cs) */
  function StripRight(s: string, cs: set<char>): (r: string)
    ensures |r| <= |s| && r == s[..|r|]
    ensures r == [] || r[|r| - 1] !in cs
  {
    if s != [] && s[|s| - 1] in cs then StripRight(s[..|s| - 1], cs) else s
  }

  /** s.strip(cs): the longest middle slice of s that neither begins nor ends with a character of cs. */
  function StripChars(s: string, cs: set<char>): (r: string)
    ensures r == [] || (r[0] !in cs && r[|r| - 1] !in cs)
  {
    StripRight(StripLeft(s, cs), cs)
  }

  /** lstrip removes exactly the leading characters of cs. */
  lemma {:induction false} StripLeftRemovesPrefix(s: string, cs: set<char>)
    ensures forall i :: 0 <= i < |s| - |StripLeft(s, cs)| ==> s[i] in cs
  {
    if s != [] && s[0] in cs {
      StripLeftRemovesPrefix(s[1..], cs);
    }
  }

  /** rstrip removes exactly the trailing characters of cs. */
  lemma {:induction false} StripRightRemovesSuffix(s: string, cs: set<char>)
    ensures forall i :: |StripRight(s, cs)| <= i < |s| ==> s[i] in cs
  {
    if s != [] && s[|s| - 1] in cs {
      StripRightRemovesSuffix(s[..|s| - 1], cs);
    }
  }

  /**
   * strip keeps the slice s[lo..hi] and drops only characters of cs around
   * it; the result is empty exactly when every character of s is in cs.
   */
  lemma StripCharsSlice(s: string, cs: set<char>)
    ensures exists lo, hi :: 0 <= lo <= hi <= |s| && StripChars(s, cs) == s[lo..hi]
              && (forall i :: 0 <= i < lo ==> s[i] in cs) && (forall i :: hi <= i < |s| ==> s[i] in cs)
    ensures StripChars(s, cs) == [] <==> forall i :: 0 <= i < |s| ==> s[i] in cs
  {
    var l := StripLeft(s, cs);
    var r := StripRight(l, cs);
    var lo := |s| - |l|;
    var hi := lo + |r|;
    StripLeftRemovesPrefix(s, cs);
    StripRightRemovesSuffix(l, cs);
    assert r == s[lo..hi];
    forall i | hi <= i < |s| ensures s[i] in cs {
      assert s[i] == l[i - lo];
    }
  }

  /** s.strip() */
  function Strip(s: string): string
  {
    StripChars(s, Whitespace)
  }

  /** Stripping a string that neither begins nor ends with a character of cs returns it unchanged. */
  lemma StripCharsUnchanged(s: string, cs: set<char>)
    requires s == [] || (s[0] !in cs && s[|s| - 1] !in cs)
    ensures StripChars(s, cs) == s
  {
  }

  /** Removing the leading and trailing characters of cs once removes all of them. */
  lemma StripCharsIdempotent(s: string, cs: set<char>)
    ensures StripChars(StripChars(s, cs), cs) == StripChars(s, cs)
  {
    StripCharsUnchanged(StripChars(s, cs), cs);
  }

  /** Stripping a text enclosed in one character of cs on each side removes exactly those two, when the text itself neither begins nor ends with one. */
  lemma StripEnclosing(open: char, w: string, close: char, cs: set<char>)
    requires open in cs && close in cs
    requires w == [] || (w[0] !in cs && w[|w| - 1] !in cs)
    ensures StripChars([open] + w + [close], cs) == w
  {
    var t := w + [close];
    assert ([open] + w + [close])[1..] == t;
    assert StripLeft([open] + w + [close], cs) == StripLeft(t, cs);
    if w == [] {
      assert StripLeft(t, cs) == StripLeft([], cs);
    } else {
      assert t[..|t| - 1] == w;
      assert StripRight(t, cs) == StripRight(w, cs);
    }
  }

  /** Lower-casing of one character, for the ASCII letters. */
  function LowerChar(c: char): char
  {
    if 'A' <= c <= 'Z' then (c as int - 'A' as int + 'a' as int) as char else c
  }

  /** Upper-casing of one character, for the ASCII letters. */
  function UpperChar(c: char): char
  {
    if 'a' <= c <= 'z' then (c as int - 'a' as int + 'A' as int) as char else c
  }

  /** s.lower(), restricted to the ASCII letters. */
  function ToLower(s: string): (r: string)
    ensures |r| == |s| && forall i :: 0 <= i < |s| ==> r[i] == LowerChar(s[i])
    ensures forall i :: 0 <= i < |r| ==> !('A' <= r[i] <= 'Z')
  {
    seq(|s|, i requires 0 <= i < |s| => LowerChar(s[i]))
  }

  /** s.upper(), restricted to the ASCII letters. */
  function ToUpper(s: string): (r: string)
    ensures |r| == |s| && forall i :: 0 <= i < |s| ==> r[i] == UpperChar(s[i])
    ensures forall i :: 0 <= i < |r| ==> !('a' <= r[i] <= 'z')
  {
    seq(|s|, i requires 0 <= i < |s| => UpperChar(s[i]))
  }

  /** Lower-casing works character by character, so it distributes over concatenation. */
  lemma ToLowerConcat(a: string, b: string)
    ensures ToLower(a + b) == ToLower(a) + ToLower(b)
  {
    assert forall i :: 0 <= i < |a + b| ==> ToLower(a + b)[i] == (ToLower(a) + ToLower(b))[i];
  }

  /** w occurs in s starting at index i. */
  predicate OccursAt(s: string, w: string, i: nat)
  {
    i + |w| <= |s| && s[i..i + |w|] == w
  }

  /** Python's `w in s` for strings: w occurs in s as a contiguous slice. */
  predicate IsSubstring(w: string, s: string)
  {
    exists i: nat | i <= |s| :: OccursAt(s, w, i)
  }

  /** A slice that occurs in s also occurs in any text that contains s. */
  lemma SubstringInLonger(w: string, s: string, before: string, after: string)
    requires IsSubstring(w, s)
    ensures IsSubstring(w, before + s + after)
  {
    var i: nat :| i <= |s| && OccursAt(s, w, i);
    var t := before + s + after;
    assert t[|before| + i..|before| + i + |w|] == w;
    assert OccursAt(t, w, |before| + i);
  }

  /** The first index at or after k where sep occurs in s, if any. */
  function FindFrom(s: string, sep: string, k: nat): (r: Option<nat>)
    requires k <= |s|
    ensures r.Some? ==> k <= r.value && r.value + |sep| <= |s|
    decreases |s| - k
  {
    if k + |sep| > |s| then None
    else if s[k..k + |sep|] == sep then Some(k)
    else if k == |s| then None
    else FindFrom(s, sep, k + 1)
  }

  /** FindFrom finds an occurrence with none before it from k on, and finds nothing only when sep does not occur from k on. */
  lemma {:induction false} FindFromFirst(s: string, sep: string, k: nat)
    requires k <= |s|
    ensures FindFrom(s, sep, k).Some? ==> OccursAt(s, sep, FindFrom(s, sep, k).value)
    ensures FindFrom(s, sep, k).Some? ==> forall j: nat :: k <= j < FindFrom(s, sep, k).value ==> !OccursAt(s, sep, j)
    ensures FindFrom(s, sep, k).None? ==> forall j: nat :: k <= j ==> !OccursAt(s, sep, j)
    decreases |s| - k
  {
    if k + |sep| <= |s| && s[k..k + |sep|] != sep && k < |s| {
      FindFromFirst(s, sep, k + 1);
    }
  }

  /** s.find(sep), as an Option: the index of the first occurrence of sep in s. */
  function Find(s: string, sep: string): (r: Option<nat>)
    ensures r.Some? ==> r.value + |sep| <= |s|
  {
    FindFrom(s, sep, 0)
  }

  /** Find gives the first occurrence of sep, and nothing exactly when sep does not occur in s. */
  lemma FindFirst(s: string, sep: string)
    ensures Find(s, sep).Some? ==> OccursAt(s, sep, Find(s, sep).value)
    ensures Find(s, sep).Some? ==> forall j: nat :: j < Find(s, sep).value ==> !OccursAt(s, sep, j)
    ensures Find(s, sep).None? <==> !IsSubstring(sep, s)
  {
    FindFromFirst(s, sep, 0);
  }

  /** s.split(sep) for a non-empty separator: the pieces between the non-overlapping occurrences of sep, from left to right. */
  function Split(s: string, sep: string): (parts: seq<string>)
    requires sep != []
    ensures |parts| >= 1
    decreases |s|
  {
    match Find(s, sep)
    case None => [s]
    case Some(i) => [s[..i]] + Split(s[i + |sep|..], sep)
  }

  /** sep.join(parts) */
  function Join(parts: seq<string>, sep: string): string
    requires |parts| >= 1
  {
    if |parts| == 1 then parts[0] else parts[0] + sep + Join(parts[1..], sep)
  }

  /** Splitting and joining back with the same separator restores the text. */
  lemma {:induction false} JoinSplit(s: string, sep: string)
    requires sep != []
    ensures Join(Split(s, sep), sep) == s
    decreases |s|
  {
    var f := Find(s, sep);
    FindFirst(s, sep);
    if f.Some? {
      var i := f.value;
      var rest := s[i + |sep|..];
      var tail := Split(rest, sep);
      JoinSplit(rest, sep);
      assert Split(s, sep) == [s[..i]] + tail;
      assert Join([s[..i]] + tail, sep) == s[..i] + sep + Join(tail, sep) by {
        assert ([s[..i]] + tail)[1..] == tail;
      }
      SplitAround(s, sep, i);
    }
  }

  /** An occurrence of sep at i cuts s into the text before, sep and the text after. */
  lemma SplitAround(s: string, sep: string, i: nat)
    requires OccursAt(s, sep, i)
    ensures s == s[..i] + sep + s[i + |sep|..]
  {
    assert s[i..i + |sep|] == sep;
    assert s == s[..i] + s[i..i + |sep|] + s[i + |sep|..];
  }

  /** No piece of a split contains the separator. */
  lemma {:induction false} SplitPartsFree(s: string, sep: string)
    requires sep != []
    ensures forall k :: 0 <= k < |Split(s, sep)| ==> !IsSubstring(sep, Split(s, sep)[k])
    decreases |s|
  {
    var parts := Split(s, sep);
    var f := Find(s, sep);
    FindFirst(s, sep);
    if f.Some? {
      var i := f.value;
      var rest := s[i + |sep|..];
      var tail := Split(rest, sep);
      SplitPartsFree(rest, sep);
      BeforeFirstOccurrence(s, sep, i);
      assert parts == [s[..i]] + tail;
      forall k | 0 <= k < |parts| ensures !IsSubstring(sep, parts[k]) {
        if k > 0 {
          assert parts[k] == tail[k - 1];
        }
      }
    } else {
      assert parts == [s];
    }
  }

  /** The text before the first occurrence of sep does not contain sep. */
  lemma BeforeFirstOccurrence(s: string, sep: string, i: nat)
    requires sep != [] && Find(s, sep) == Some(i)
    ensures !IsSubstring(sep, s[..i])
  {
    FindFirst(s, sep);
    var head := s[..i];
    forall j: nat | j <= |head| ensures !OccursAt(head, sep, j) {
      if j + |sep| <= |head| {
        assert head[j..j + |sep|] == s[j..j + |sep|];
        assert !OccursAt(s, sep, j);
      }
    }
  }

  /** Text without the separator splits into one piece, itself. */
  lemma SplitWithoutSeparator(s: string, sep: string)
    requires sep != [] && !IsSubstring(sep, s)
    ensures Split(s, sep) == [s]
  {
    FindFirst(s, sep);
  }

  /** When the first occurrence of sep in a + sep + b is the one right after a, the split starts with a. */
  lemma SplitAtFirst(a: string, sep: string, b: string)
    requires sep != []
    requires Find(a + sep + b, sep) == Some(|a|)
    ensures Split(a + sep + b, sep) == [a] + Split(b, sep)
  {
    var s := a + sep + b;
    assert s[..|a|] == a;
    assert s[|a| + |sep|..] == b;
  }

  /** Find locates the occurrence that starts at i when no earlier one exists. */
  lemma FindFirstOccurrence(s: string, sep: string, i: nat)
    requires OccursAt(s, sep, i)
    requires forall j: nat :: j < i ==> !OccursAt(s, sep, j)
    ensures Find(s, sep) == Some(i)
  {
    FindFirst(s, sep);
    assert IsSubstring(sep, s);
  }

  /** A one-character separator occurs in s exactly where s holds that character. */
  lemma CharOccurrences(s: string, c: char)
    ensures forall j: nat :: OccursAt(s, [c], j) <==> j < |s| && s[j] == c
  {
    forall j: nat ensures OccursAt(s, [c], j) <==> j < |s| && s[j] == c {
      if j < |s| {
        assert s[j..j + 1] == [s[j]];
      }
    }
  }

  /** Splitting a + c + b on c, where a does not hold c, starts with a. */
  lemma SplitAtChar(a: string, c: char, b: string)
    requires c !in a
    ensures Split(a + [c] + b, [c]) == [a] + Split(b, [c])
  {
    var s := a + [c] + b;
    CharOccurrences(s, c);
    assert s[|a|] == c;
    forall j: nat | j < |a| ensures !OccursAt(s, [c], j) {
      assert s[j] == a[j];
    }
    FindFirstOccurrence(s, [c], |a|);
    SplitAtFirst(a, [c], b);
  }

  /** A text without the character c splits on c into itself. */
  lemma SplitWithoutChar(s: string, c: char)
    requires c !in s
    ensures Split(s, [c]) == [s]
  {
    CharOccurrences(s, c);
    SplitWithoutSeparator(s, [c]);
  }

  predicate IsDigit(c: char)
  {
    '0' <= c <= '9'
  }

  predicate AllDigits(s: string)
  {
    forall i :: 0 <= i < |s| ==> IsDigit(s[i])
  }

  function DigitChar(d: nat): (c: char)
    requires d < 10
    ensures IsDigit(c) && c as int - '0' as int == d
  {
    ('0' as int + d) as char
  }

  /** str(n) for a non-negative integer: its decimal digits, without leading zeros. */
  function Decimal(n: nat): (s: string)
    ensures |s| >= 1 && AllDigits(s)
    ensures |s| > 1 ==> s[0] != '0'
    decreases n
  {
    if n < 10 then [DigitChar(n)] else Decimal(n / 10) + [DigitChar(n % 10)]
  }

  /** int(s) for a string of decimal digits (the empty string reads as 0). */
  function DecimalValue(s: string): nat
    requires AllDigits(s)
  {
    if s == [] then 0 else DecimalValue(s[..|s| - 1]) * 10 + (s[|s| - 1] as int - '0' as int)
  }

  /** Reading back the digits of n gives n. */
  lemma {:induction false} DecimalRoundTrip(n: nat)
    ensures DecimalValue(Decimal(n)) == n
    decreases n
  {
    if n >= 10 {
      DecimalRoundTrip(n / 10);
      var s := Decimal(n);
      assert s[..|s| - 1] == Decimal(n / 10);
    }
  }

  /** Leading zeros do not change the value of a decimal numeral. */
  lemma {:induction false} LeadingZerosValue(z: nat, s: string)
    requires AllDigits(s)
    ensures AllDigits(Zeros(z) + s) && DecimalValue(Zeros(z) + s) == DecimalValue(s)
    decreases |s|
  {
    if s == [] {
      ZerosValue(z);
      assert Zeros(z) + s == Zeros(z);
    } else {
      var t := Zeros(z) + s;
      assert t[..|t| - 1] == Zeros(z) + s[..|s| - 1];
      LeadingZerosValue(z, s[..|s| - 1]);
    }
  }

  function Zeros(z: nat): (r: string)
    ensures |r| == z && AllDigits(r)
    ensures forall i :: 0 <= i < z ==> r[i] == '0'
  {
    seq(z, i => '0')
  }

  lemma {:induction false} ZerosValue(z: nat)
    ensures DecimalValue(Zeros(z)) == 0
  {
    if z > 0 {
      assert Zeros(z)[..z - 1] == Zeros(z - 1);
      ZerosValue(z - 1);
    }
  }

  /** format(n, '0<width>d') for a non-negative n: its digits with zeros prepended up to the width. */
  function ZeroPadded(n: nat, width: nat): (s: string)
    ensures AllDigits(s)
    ensures |s| == if |Decimal(n)| >= width then |Decimal(n)| else width
  {
    var d := Decimal(n);
    if |d| >= width then d else Zeros(width - |d|) + d
  }

  /** The padded numeral still reads as n. */
  lemma ZeroPaddedValue(n: nat, width: nat)
    ensures DecimalValue(ZeroPadded(n, width)) == n
  {
    var d := Decimal(n);
    DecimalRoundTrip(n);
    if |d| < width {
      var z := width - |d|;
      LeadingZerosValue(z, d);
      assert ZeroPadded(n, width) == Zeros(z) + d;
    }
  }
}
