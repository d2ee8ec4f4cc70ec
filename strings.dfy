/** The pieces of Go's `strings` and `fmt` packages that the reconciler relies on. */
module Strings {
  import opened Wrappers

  /** White space as Go's `unicode.IsSpace` defines it. */
  predicate IsSpace(c: char) {
    || c == ' ' || c == '\t' || c == '\n' || c == '\r' || c == '\U{000B}' || c == '\U{000C}'
    || c == '\U{0085}' || c == '\U{00A0}' || c == '\U{1680}'
    || ('\U{2000}' <= c <= '\U{200A}')
    || c == '\U{2028}' || c == '\U{2029}' || c == '\U{202F}' || c == '\U{205F}' || c == '\U{3000}'
  }

  predicate AllSpace(s: string) {
    forall i :: 0 <= i < |s| ==> IsSpace(s[i])
  }

  /** The first position at or after `k` that is not white space, or `|s|`. */
  function FirstNonSpace(s: string, k: nat): (i: nat)
    requires k <= |s|
    ensures k <= i <= |s|
    ensures forall j :: k <= j < i ==> IsSpace(s[j])
    ensures i < |s| ==> !IsSpace(s[i])
    decreases |s| - k
  {
    if k == |s| || !IsSpace(s[k]) then k else FirstNonSpace(s, k + 1)
  }

  /** One past the last position before `k` that is not white space, or 0. */
  function EndOfNonSpace(s: string, k: nat): (e: nat)
    requires k <= |s|
    ensures e <= k
    ensures forall j :: e <= j < k ==> IsSpace(s[j])
    ensures e > 0 ==> !IsSpace(s[e - 1])
  {
    if k == 0 || !IsSpace(s[k - 1]) then k else EndOfNonSpace(s, k - 1)
  }

  /** Go's `strings.TrimSpace`: `s` without its leading and trailing white space. */
  function TrimSpace(s: string): (r: string)
    ensures |r| <= |s|
    ensures r == [] || (!IsSpace(r[0]) && !IsSpace(r[|r| - 1]))
    ensures r == [] <==> AllSpace(s)
  {
    var i := FirstNonSpace(s, 0);
    var e := EndOfNonSpace(s, |s|);
    if e <= i then [] else s[i..e]
  }

  /** The trimmed form is the slice of `s` between its leading and its trailing white space. */
  lemma TrimSpaceIsSlice(s: string)
    ensures exists i, e :: 0 <= i <= e <= |s| && TrimSpace(s) == s[i..e] && AllSpace(s[..i]) && AllSpace(s[e..])
  {
    var i := FirstNonSpace(s, 0);
    var e := EndOfNonSpace(s, |s|);
    if e <= i {
      assert AllSpace(s[..|s|]) && AllSpace(s[|s|..]) && TrimSpace(s) == s[|s|..|s|];
    } else {
      assert AllSpace(s[..i]) && AllSpace(s[e..]) && TrimSpace(s) == s[i..e];
    }
  }

  /** A string with no white space at either end is its own trimmed form. */
  lemma TrimSpaceOfTrimmed(s: string)
    requires s == [] || (!IsSpace(s[0]) && !IsSpace(s[|s| - 1]))
    ensures TrimSpace(s) == s
  {
  }

  /** Trimming removes exactly the white space around a trimmed core. */
  lemma TrimSpaceOfPadded(pre: string, t: string, post: string)
    requires AllSpace(pre) && AllSpace(post)
    requires t == [] || (!IsSpace(t[0]) && !IsSpace(t[|t| - 1]))
    ensures TrimSpace(pre + t + post) == t
  {
    var x := pre + t + post;
    var m := |pre| + |t|;
    assert forall j :: 0 <= j < |pre| ==> x[j] == pre[j];
    assert forall j :: m <= j < |x| ==> x[j] == post[j - m];
    if t == [] {
      assert AllSpace(x);
    } else {
      assert x[|pre|] == t[0] && x[m - 1] == t[|t| - 1];
      FirstNonSpaceAt(x, |pre|);
      EndOfNonSpaceAt(x, m);
      assert x[|pre|..m] == t;
    }
  }

  lemma FirstNonSpaceAt(s: string, k: nat)
    requires k < |s| && !IsSpace(s[k])
    requires forall j :: 0 <= j < k ==> IsSpace(s[j])
    ensures FirstNonSpace(s, 0) == k
  {
  }

  lemma EndOfNonSpaceAt(s: string, e: nat)
    requires 0 < e <= |s| && !IsSpace(s[e - 1])
    requires forall j :: e <= j < |s| ==> IsSpace(s[j])
    ensures EndOfNonSpace(s, |s|) == e
  {
  }

  /** The longest prefix of `s` without white space. */
  function LeadingWord(s: string): (w: string)
    ensures |w| <= |s| && w == s[..|w|]
    ensures forall j :: 0 <= j < |w| ==> !IsSpace(w[j])
    ensures |w| < |s| ==> IsSpace(s[|w|])
  {
    if s == [] || IsSpace(s[0]) then [] else [s[0]] + LeadingWord(s[1..])
  }

  /** Go's `strings.Fields`: the maximal runs of non-space characters, in order. */
  function Fields(s: string): (r: seq<string>)
    ensures forall k :: 0 <= k < |r| ==> r[k] != []
    ensures forall k, j :: 0 <= k < |r| && 0 <= j < |r[k]| ==> !IsSpace(r[k][j])
    decreases |s|
  {
    if s == [] then []
    else if IsSpace(s[0]) then Fields(s[1..])
    else
      var w := LeadingWord(s);
      [w] + Fields(s[|w|..])
  }

  lemma {:induction false} LeadingWordOf(w: string, rest: string)
    requires forall j :: 0 <= j < |w| ==> !IsSpace(w[j])
    requires rest == [] || IsSpace(rest[0])
    ensures LeadingWord(w + rest) == w
  {
    if w != [] {
      assert (w + rest)[1..] == w[1..] + rest;
      LeadingWordOf(w[1..], rest);
    }
  }

  lemma FieldsOfWord(w: string, rest: string)
    requires w != [] && forall j :: 0 <= j < |w| ==> !IsSpace(w[j])
    requires rest == [] || IsSpace(rest[0])
    ensures Fields(w + rest) == [w] + Fields(rest)
  {
    var s := w + rest;
    assert s[0] == w[0];
    LeadingWordOf(w, rest);
    assert s[|w|..] == rest;
  }

  lemma FieldsOfSpace(c: char, rest: string)
    requires IsSpace(c)
    ensures Fields([c] + rest) == Fields(rest)
  {
    assert ([c] + rest)[1..] == rest;
  }

  /** Two words separated by one white-space character are two fields. */
  lemma TwoFields(w1: string, c: char, w2: string)
    requires w1 != [] && forall j :: 0 <= j < |w1| ==> !IsSpace(w1[j])
    requires w2 != [] && forall j :: 0 <= j < |w2| ==> !IsSpace(w2[j])
    requires IsSpace(c)
    ensures Fields(w1 + [c] + w2) == [w1, w2]
  {
    assert w1 + [c] + w2 == w1 + ([c] + w2);
    FieldsOfWord(w1, [c] + w2);
    FieldsOfSpace(c, w2);
    assert w2 + [] == w2;
    FieldsOfWord(w2, []);
  }

  /** Go's `strings.Split(s, string(sep))`; it always yields at least one part. */
  function Split(s: string, sep: char): (r: seq<string>)
    ensures |r| >= 1
    ensures forall k :: 0 <= k < |r| ==> sep !in r[k]
  {
    if s == [] then [[]]
    else
      var rest := Split(s[1..], sep);
      if s[0] == sep then [[]] + rest else [[s[0]] + rest[0]] + rest[1..]
  }

  /** Go's `strings.Join(parts, string(sep))`. */
  function Join(parts: seq<string>, sep: char): string
  {
    if |parts| == 0 then []
    else if |parts| == 1 then parts[0]
    else Join(parts[..|parts| - 1], sep) + [sep] + parts[|parts| - 1]
  }

  lemma {:induction false} JoinPrependToFirst(c: char, parts: seq<string>, sep: char)
    requires |parts| >= 1
    ensures Join([[c] + parts[0]] + parts[1..], sep) == [c] + Join(parts, sep)
    decreases |parts|
  {
    var q := [[c] + parts[0]] + parts[1..];
    if |parts| > 1 {
      JoinPrependToFirst(c, parts[..|parts| - 1], sep);
      assert q[..|q| - 1] == [[c] + parts[..|parts| - 1][0]] + parts[..|parts| - 1][1..];
    }
  }

  lemma {:induction false} JoinPrependEmpty(parts: seq<string>, sep: char)
    requires |parts| >= 1
    ensures Join([[]] + parts, sep) == [sep] + Join(parts, sep)
    decreases |parts|
  {
    var q := [[]] + parts;
    if |parts| > 1 {
      JoinPrependEmpty(parts[..|parts| - 1], sep);
      assert q[..|q| - 1] == [[]] + parts[..|parts| - 1];
    }
  }

  /** Splitting and re-joining with the same separator gives the string back. */
  lemma {:induction false} JoinSplit(s: string, sep: char)
    ensures Join(Split(s, sep), sep) == s
  {
    if s != [] {
      var rest := Split(s[1..], sep);
      JoinSplit(s[1..], sep);
      if s[0] == sep {
        JoinPrependEmpty(rest, sep);
      } else {
        JoinPrependToFirst(s[0], rest, sep);
      }
    }
  }

  /** Splitting at a separator occurrence splits the parts. */
  lemma {:induction false} SplitAppend(a: string, b: string, sep: char)
    ensures Split(a + [sep] + b, sep) == Split(a, sep) + Split(b, sep)
  {
    var s := a + [sep] + b;
    if a == [] {
      assert s[1..] == b;
    } else {
      assert s[1..] == a[1..] + [sep] + b;
      SplitAppend(a[1..], b, sep);
    }
  }

  /** A string without the separator is a single part. */
  lemma {:induction false} SplitNoSeparator(s: string, sep: char)
    requires sep !in s
    ensures Split(s, sep) == [s]
  {
    if s != [] {
      assert s[0] != sep && s == [s[0]] + s[1..];
      SplitNoSeparator(s[1..], sep);
    }
  }

  // ---- fmt.Sscanf(field, "%d", &n) ----

  predicate IsDigit(c: char) {
    '0' <= c <= '9'
  }

  predicate AllDigits(s: string) {
    forall i :: 0 <= i < |s| ==> IsDigit(s[i])
  }

  /** The longest prefix of `s` made of decimal digits. */
  function DigitPrefix(s: string): (d: string)
    ensures |d| <= |s| && d == s[..|d|] && AllDigits(d)
    ensures |d| < |s| ==> !IsDigit(s[|d|])
  {
    if s == [] || !IsDigit(s[0]) then [] else [s[0]] + DigitPrefix(s[1..])
  }

  /** The number a string of decimal digits denotes. */
  function DecimalValue(d: string): nat
    requires AllDigits(d)
  {
    if d == [] then 0 else DecimalValue(d[..|d| - 1]) * 10 + (d[|d| - 1] as int - '0' as int)
  }

  const Int64Min: int := -0x8000_0000_0000_0000
  const Int64Max: int := 0x7FFF_FFFF_FFFF_FFFF

  /** `fmt.Sscanf(s, "%d", &n)` into a 64-bit `int`: an optional sign, then at least one
      decimal digit; scanning stops at the first non-digit, and a value outside the 64-bit
      range is an error. `None` is the error case, in which `n` keeps its old value. */
  function ScanInt(s: string): (r: Option<int>)
    ensures r.Some? ==> Int64Min <= r.value <= Int64Max
    ensures s == [] ==> r.None?
  {
    var signed := |s| > 0 && (s[0] == '-' || s[0] == '+');
    var rest := if signed then s[1..] else s;
    var d := DigitPrefix(rest);
    if d == [] then None
    else
      var v: int := if signed && s[0] == '-' then 0 - DecimalValue(d) else DecimalValue(d);
      if Int64Min <= v <= Int64Max then Some(v) else None
  }

  /** The decimal rendering of a natural number, as git prints its counts. */
  function Decimal(n: nat): (r: string)
    ensures r != [] && AllDigits(r)
  {
    if n < 10 then [('0' as int + n) as char]
    else Decimal(n / 10) + [('0' as int + n % 10) as char]
  }

  lemma {:induction false} DecimalValueOfDecimal(n: nat)
    ensures DecimalValue(Decimal(n)) == n
  {
    var r := Decimal(n);
    if n >= 10 {
      DecimalValueOfDecimal(n / 10);
      assert r[..|r| - 1] == Decimal(n / 10);
    }
  }

  /** Scanning the decimal rendering of an in-range number gives the number back. */
  lemma ScanDecimal(n: nat)
    requires n <= Int64Max
    ensures ScanInt(Decimal(n)) == Some(n)
  {
    var s := Decimal(n);
    assert DigitPrefix(s) == s by {
      DigitPrefixOfDigits(s);
    }
    DecimalValueOfDecimal(n);
  }

  lemma {:induction false} DigitPrefixOfDigits(s: string)
    requires AllDigits(s)
    ensures DigitPrefix(s) == s
  {
    if s != [] {
      DigitPrefixOfDigits(s[1..]);
    }
  }
}
