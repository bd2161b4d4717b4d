/** An optional value: a nullable column, an absent field, a failed parse. */
module Optional {
  datatype Option<T> = None | Some(value: T)
}

/** Order-preserving operations on sequences. */
module Sequences {
  import opened Optional

  /** The first index from `i` on whose element satisfies `p`, if any. */
  function FirstFrom<T>(p: T -> bool, s: seq<T>, i: nat): (k: Option<nat>)
    requires i <= |s|
    ensures k.Some? ==> i <= k.value < |s| && p(s[k.value])
    ensures k.Some? ==> forall j :: i <= j < k.value ==> !p(s[j])
    ensures k.None? ==> forall j :: i <= j < |s| ==> !p(s[j])
    decreases |s| - i
  {
    if i == |s| then None
    else if p(s[i]) then Some(i)
    else FirstFrom(p, s, i + 1)
  }

  /** Two tests that agree on every element find the same index. */
  lemma {:induction false} FirstFromSame<T>(p: T -> bool, q: T -> bool, s: seq<T>, i: nat)
    requires i <= |s|
    requires forall k :: i <= k < |s| ==> p(s[k]) == q(s[k])
    ensures FirstFrom(p, s, i) == FirstFrom(q, s, i)
    decreases |s| - i
  {
    if i < |s| {
      FirstFromSame(p, q, s, i + 1);
    }
  }

  /** The number of elements satisfying `p`. */
  function Count<T>(p: T -> bool, s: seq<T>): (n: nat)
    ensures n <= |s|
  {
    if s == [] then 0 else (if p(s[0]) then 1 else 0) + Count(p, s[1..])
  }

  lemma {:induction false} CountPositive<T>(p: T -> bool, s: seq<T>)
    ensures Count(p, s) > 0 <==> exists k :: 0 <= k < |s| && p(s[k])
  {
    if s != [] {
      CountPositive(p, s[1..]);
      if exists k :: 0 <= k < |s| && p(s[k]) {
        var k :| 0 <= k < |s| && p(s[k]);
        if k > 0 { assert s[1..][k - 1] == s[k]; }
      }
      if exists k :: 0 <= k < |s[1..]| && p(s[1..][k]) {
        var k :| 0 <= k < |s[1..]| && p(s[1..][k]);
        assert s[k + 1] == s[1..][k];
      }
    }
  }
  /** Keeps the elements satisfying `p`, in order. */
  function Filter<T(!new)>(p: T -> bool, s: seq<T>): (r: seq<T>)
    ensures |r| <= |s|
    ensures forall x :: x in r <==> x in s && p(x)
    ensures multiset(r) <= multiset(s)
  {
    if s == [] then []
    else
      assert s == [s[0]] + s[1..];
      (if p(s[0]) then [s[0]] else []) + Filter(p, s[1..])
  }

  /** Dropping past a prefix drops from what follows it. */
  lemma DropAfterPrefix<T>(pre: seq<T>, t: seq<T>, n: nat)
    requires n <= |t|
    ensures (pre + t)[|pre| + n..] == t[n..]
  {
  }

  /** Filtering keeps order: it distributes over concatenation. */
  lemma {:induction false} FilterConcat<T(!new)>(p: T -> bool, a: seq<T>, b: seq<T>)
    ensures Filter(p, a + b) == Filter(p, a) + Filter(p, b)
  {
    if a == [] {
      assert a + b == b;
    } else {
      assert (a + b)[0] == a[0];
      assert (a + b)[1..] == a[1..] + b;
      FilterConcat(p, a[1..], b);
    }
  }

  /** Filtering keeps a sequence whose every element passes. */
  lemma {:induction false} FilterAllKept<T(!new)>(p: T -> bool, s: seq<T>)
    requires forall x :: x in s ==> p(x)
    ensures Filter(p, s) == s
  {
    if s != [] {
      assert forall x :: x in s[1..] ==> x in s;
      FilterAllKept(p, s[1..]);
      assert s == [s[0]] + s[1..];
    }
  }

  /** Filtering out one element that alone fails keeps the others, in order. */
  lemma FilterRemovesOne<T(!new)>(p: T -> bool, before: seq<T>, x: T, after: seq<T>)
    requires forall y :: y in before ==> p(y)
    requires forall y :: y in after ==> p(y)
    requires !p(x)
    ensures Filter(p, before + [x] + after) == before + after
  {
    FilterAllKept(p, before);
    FilterAllKept(p, after);
    FilterOfFailing(p, x);
    FilterConcat(p, before, [x]);
    assert Filter(p, before + [x]) == before + [];
    assert before + [] == before;
    FilterConcat(p, before + [x], after);
  }

  lemma FilterOfFailing<T(!new)>(p: T -> bool, x: T)
    requires !p(x)
    ensures Filter(p, [x]) == []
  {
    assert [x][1..] == [];
  }

  /** Every two elements, the earlier first, are related by `R`. */
  predicate Pairwise<T>(R: (T, T) -> bool, s: seq<T>) {
    forall i, j :: 0 <= i < j < |s| ==> R(s[i], s[j])
  }

  /** Filtering keeps a pairwise relation. */
  lemma {:induction false} FilterKeepsPairwise<T(!new)>(R: (T, T) -> bool, p: T -> bool, s: seq<T>)
    requires Pairwise(R, s)
    ensures Pairwise(R, Filter(p, s))
  {
    if s != [] {
      var t := s[1..];
      assert Pairwise(R, t) by {
        forall i, j | 0 <= i < j < |t| ensures R(t[i], t[j]) {
          assert t[i] == s[i + 1] && t[j] == s[j + 1];
        }
      }
      FilterKeepsPairwise(R, p, t);
      var ft := Filter(p, t);
      if p(s[0]) {
        var all := [s[0]] + ft;
        forall i, j | 0 <= i < j < |all| ensures R(all[i], all[j]) {
          assert all[j] == ft[j - 1];
          if i == 0 {
            assert ft[j - 1] in t;
            var m :| 0 <= m < |t| && t[m] == ft[j - 1];
            assert s[m + 1] == t[m];
          } else {
            assert all[i] == ft[i - 1];
          }
        }
      }
    }
  }
}

/**
  Character and string helpers shared by the backend and the pages: ASCII case
  mapping, the two trimming disciplines in play (JavaScript's `trim` and Oracle's
  `TRIM`), and the decimal rendering and parsing of integers.
*/
module Text {
  import opened Optional
  import opened Sequences

  // ---------------------------------------------------------------------------
  // Trimming
  // ---------------------------------------------------------------------------

  /** JavaScript's `String.prototype.trim` removes white space and line
      terminators; Oracle's `TRIM(x)` removes only the space character. */
  datatype Blank = JsWhitespace | SqlSpace

  /**
    ECMAScript's WhiteSpace and LineTerminator characters: tab to carriage
    return, the space separators of Unicode (U+0020, U+00A0, U+1680,
    U+2000 to U+200A, U+202F, U+205F, U+3000), U+2028, U+2029 and U+FEFF.
  */
  predicate IsJsSpace(c: char) {
    '\t' <= c <= '\r' || c == ' ' || c == '\U{A0}' || c == '\U{1680}'
    || '\U{2000}' <= c <= '\U{200A}' || c == '\U{2028}' || c == '\U{2029}'
    || c == '\U{202F}' || c == '\U{205F}' || c == '\U{3000}' || c == '\U{FEFF}'
  }

  predicate IsBlank(kind: Blank, c: char) {
    match kind
    case SqlSpace => c == ' '
    case JsWhitespace => IsJsSpace(c)
  }

  predicate AllBlank(kind: Blank, s: string) {
    forall k :: 0 <= k < |s| ==> IsBlank(kind, s[k])
  }

  /** The number of blank characters from index `i` on, up to the first non-blank one. */
  function LeadingFrom(kind: Blank, s: string, i: nat): (n: nat)
    requires i <= |s|
    ensures i + n <= |s|
    ensures forall k :: i <= k < i + n ==> IsBlank(kind, s[k])
    ensures i + n == |s| || !IsBlank(kind, s[i + n])
    decreases |s| - i
  {
    if i == |s| || !IsBlank(kind, s[i]) then 0 else 1 + LeadingFrom(kind, s, i + 1)
  }

  /** The number of blank characters just before index `i`, back to the last non-blank one. */
  function TrailingBefore(kind: Blank, s: string, i: nat): (n: nat)
    requires i <= |s|
    ensures n <= i
    ensures forall k :: i - n <= k < i ==> IsBlank(kind, s[k])
    ensures n == i || !IsBlank(kind, s[i - 1 - n])
  {
    if i == 0 || !IsBlank(kind, s[i - 1]) then 0 else 1 + TrailingBefore(kind, s, i - 1)
  }

  /** The number of blank characters that start `s`. */
  function LeadingBlanks(kind: Blank, s: string): nat {
    LeadingFrom(kind, s, 0)
  }

  /** The number of blank characters that end `s`. */
  function TrailingBlanks(kind: Blank, s: string): (n: nat)
    ensures n <= |s|
  {
    TrailingBefore(kind, s, |s|)
  }

  /** `s` without its leading blanks. */
  function TrimStart(kind: Blank, s: string): (r: string)
    ensures r == [] || !IsBlank(kind, r[0])
  {
    s[LeadingBlanks(kind, s)..]
  }

  /** `s` without its trailing blanks. */
  function TrimEnd(kind: Blank, s: string): (r: string)
    ensures r == [] || !IsBlank(kind, r[|r| - 1])
  {
    s[..|s| - TrailingBlanks(kind, s)]
  }

  /** `s` without its leading and trailing blanks. */
  function Trim(kind: Blank, s: string): (r: string)
    ensures r == [] || (!IsBlank(kind, r[0]) && !IsBlank(kind, r[|r| - 1]))
  {
    TrimEnd(kind, TrimStart(kind, s))
  }

  /** `TrimStart` removes a blank prefix and nothing else. */
  lemma TrimStartSplit(kind: Blank, s: string)
    ensures AllBlank(kind, s[..LeadingBlanks(kind, s)])
    ensures s == s[..LeadingBlanks(kind, s)] + TrimStart(kind, s)
  {
    var n := LeadingBlanks(kind, s);
    forall k | 0 <= k < n ensures IsBlank(kind, s[..n][k]) {
      assert s[..n][k] == s[k];
    }
    assert s == s[..n] + s[n..];
  }

  /** `TrimEnd` removes a blank suffix and nothing else. */
  lemma TrimEndSplit(kind: Blank, t: string)
    ensures AllBlank(kind, t[|t| - TrailingBlanks(kind, t)..])
    ensures t == TrimEnd(kind, t) + t[|t| - TrailingBlanks(kind, t)..]
  {
    var m := TrailingBlanks(kind, t);
    var suffix := t[|t| - m..];
    forall k | 0 <= k < m ensures IsBlank(kind, suffix[k]) {
      assert suffix[k] == t[|t| - m + k];
    }
    assert t == t[..|t| - m] + t[|t| - m..];
  }

  /** Trimming removes blanks only: `s` is the trimmed text with blanks around it. */
  lemma TrimSplits(kind: Blank, s: string)
    ensures exists pre, post :: AllBlank(kind, pre) && AllBlank(kind, post) && s == pre + Trim(kind, s) + post
  {
    var t := TrimStart(kind, s);
    TrimStartSplit(kind, s);
    TrimEndSplit(kind, t);
    var pre, post := s[..LeadingBlanks(kind, s)], t[|t| - TrailingBlanks(kind, t)..];
    assert s == pre + Trim(kind, s) + post;
  }

  /** In an all-blank text, the count from `i` runs to the end. */
  lemma {:induction false} LeadingFromAllBlank(kind: Blank, s: string, i: nat)
    requires AllBlank(kind, s) && i <= |s|
    ensures LeadingFrom(kind, s, i) == |s| - i
    decreases |s| - i
  {
    if i < |s| {
      LeadingFromAllBlank(kind, s, i + 1);
    }
  }

  /** A blank prefix only adds its length to the count. */
  lemma {:induction false} LeadingFromBlankPrefix(kind: Blank, pre: string, s: string, i: nat)
    requires AllBlank(kind, pre) && i <= |pre|
    ensures LeadingFrom(kind, pre + s, i) == |pre| - i + LeadingFrom(kind, pre + s, |pre|)
    decreases |pre| - i
  {
    if i < |pre| {
      assert (pre + s)[i] == pre[i];
      LeadingFromBlankPrefix(kind, pre, s, i + 1);
    }
  }

  /** Past the prefix, the count is the count in `s` alone. */
  lemma {:induction false} LeadingFromAfterPrefix(kind: Blank, pre: string, s: string, i: nat)
    requires i <= |s|
    ensures LeadingFrom(kind, pre + s, |pre| + i) == LeadingFrom(kind, s, i)
    decreases |s| - i
  {
    if i < |s| {
      assert (pre + s)[|pre| + i] == s[i];
      LeadingFromAfterPrefix(kind, pre, s, i + 1);
    }
  }

  /** Once a non-blank character is reached, what follows does not matter. */
  lemma {:induction false} LeadingFromStops(kind: Blank, s: string, rest: string, i: nat)
    requires i <= |s| && i + LeadingFrom(kind, s, i) < |s|
    ensures LeadingFrom(kind, s + rest, i) == LeadingFrom(kind, s, i)
    decreases |s| - i
  {
    assert (s + rest)[i] == s[i];
    if IsBlank(kind, s[i]) {
      LeadingFromStops(kind, s, rest, i + 1);
    }
  }

  /** Before the end of `s`, a suffix changes nothing. */
  lemma {:induction false} TrailingBeforeInPrefix(kind: Blank, s: string, post: string, i: nat)
    requires i <= |s|
    ensures TrailingBefore(kind, s + post, i) == TrailingBefore(kind, s, i)
  {
    if i > 0 {
      assert (s + post)[i - 1] == s[i - 1];
      TrailingBeforeInPrefix(kind, s, post, i - 1);
    }
  }

  /** A blank suffix only adds its length to the count. */
  lemma {:induction false} TrailingBeforeBlankSuffix(kind: Blank, s: string, post: string, i: nat)
    requires AllBlank(kind, post) && |s| <= i <= |s| + |post|
    ensures TrailingBefore(kind, s + post, i) == i - |s| + TrailingBefore(kind, s + post, |s|)
  {
    if i > |s| {
      assert (s + post)[i - 1] == post[i - 1 - |s|];
      TrailingBeforeBlankSuffix(kind, s, post, i - 1);
    }
  }

  /** A blank prefix is all that `TrimStart` removes from `pre + t` beyond what it removes from `t`. */
  lemma TrimStartOfBlankPrefix(kind: Blank, pre: string, t: string)
    requires AllBlank(kind, pre)
    ensures TrimStart(kind, pre + t) == TrimStart(kind, t)
  {
    LeadingFromBlankPrefix(kind, pre, t, 0);
    LeadingFromAfterPrefix(kind, pre, t, 0);
    DropAfterPrefix(pre, t, LeadingFrom(kind, t, 0));
  }

  lemma TrimStartOfPadded(kind: Blank, s: string, post: string)
    requires AllBlank(kind, post)
    ensures TrimStart(kind, s + post) == TrimStart(kind, s) + post
         || (TrimStart(kind, s) == [] && TrimStart(kind, s + post) == [])
  {
    var n := LeadingBlanks(kind, s);
    if n < |s| {
      LeadingFromStops(kind, s, post, 0);
      assert (s + post)[n..] == s[n..] + post;
    } else {
      assert AllBlank(kind, s + post) by {
        forall k | 0 <= k < |s + post| ensures IsBlank(kind, (s + post)[k]) {
          if k < |s| { assert (s + post)[k] == s[k]; } else { assert (s + post)[k] == post[k - |s|]; }
        }
      }
      LeadingFromAllBlank(kind, s + post, 0);
    }
  }

  lemma TrimEndOfPadded(kind: Blank, s: string, post: string)
    requires AllBlank(kind, post)
    ensures TrimEnd(kind, s + post) == TrimEnd(kind, s)
  {
    TrailingBeforeBlankSuffix(kind, s, post, |s| + |post|);
    TrailingBeforeInPrefix(kind, s, post, |s|);
    var m := TrailingBlanks(kind, s);
    assert (s + post)[..|s| - m] == s[..|s| - m];
  }

  /** Blanks around a string never change what trimming yields. */
  lemma TrimOfPadded(kind: Blank, pre: string, s: string, post: string)
    requires AllBlank(kind, pre) && AllBlank(kind, post)
    ensures Trim(kind, pre + s + post) == Trim(kind, s)
  {
    assert pre + s + post == pre + (s + post);
    TrimStartOfBlankPrefix(kind, pre, s + post);
    TrimStartOfPadded(kind, s, post);
    if TrimStart(kind, s + post) != TrimStart(kind, s) + post {
      assert TrimStart(kind, s) == [] && TrimStart(kind, s + post) == [];
    } else {
      TrimEndOfPadded(kind, TrimStart(kind, s), post);
    }
  }

  // ---------------------------------------------------------------------------
  // ASCII case mapping (toLowerCase, UPPER)
  // ---------------------------------------------------------------------------

  predicate IsUpper(c: char) { 'A' <= c <= 'Z' }
  predicate IsLower(c: char) { 'a' <= c <= 'z' }

  function LowerChar(c: char): char {
    if IsUpper(c) then (c as int + 32) as char else c
  }

  function UpperChar(c: char): char {
    if IsLower(c) then (c as int - 32) as char else c
  }

  /** No upper-case letter left in `s`. */
  predicate IsLowerCase(s: string) {
    forall k :: 0 <= k < |s| ==> !IsUpper(s[k])
  }

  /** No lower-case letter left in `s`. */
  predicate IsUpperCase(s: string) {
    forall k :: 0 <= k < |s| ==> !IsLower(s[k])
  }

  /** Characters that are equal once the case of letters is ignored. */
  predicate SameIgnoringCase(a: char, b: char) {
    a == b || LowerChar(a) == LowerChar(b)
  }

  function Lower(s: string): (r: string)
    ensures |r| == |s|
  {
    seq(|s|, k requires 0 <= k < |s| => LowerChar(s[k]))
  }

  /** `Lower` leaves no upper-case letter, changes only the case, and leaves lower-case text alone. */
  lemma LowerProperties(s: string)
    ensures IsLowerCase(Lower(s))
    ensures forall k :: 0 <= k < |s| ==> SameIgnoringCase(Lower(s)[k], s[k])
    ensures IsLowerCase(s) ==> Lower(s) == s
  {
  }

  function Upper(s: string): string {
    seq(|s|, k requires 0 <= k < |s| => UpperChar(s[k]))
  }

  /** `Upper` keeps the length, leaves no lower-case letter, changes only the case, and leaves upper-case text alone. */
  lemma UpperProperties(s: string)
    ensures |Upper(s)| == |s| && IsUpperCase(Upper(s))
    ensures forall k :: 0 <= k < |s| ==> SameIgnoringCase(Upper(s)[k], s[k])
    ensures IsUpperCase(s) ==> Upper(s) == s
  {
  }

  // ---------------------------------------------------------------------------
  // Decimal integers
  // ---------------------------------------------------------------------------

  predicate IsDigit(c: char) { '0' <= c <= '9' }

  predicate AllDigits(s: string) {
    forall k :: 0 <= k < |s| ==> IsDigit(s[k])
  }

  function DigitChar(d: nat): (c: char)
    requires d < 10
    ensures IsDigit(c)
  {
    ('0' as int + d) as char
  }

  function DigitValue(c: char): (d: nat)
    requires IsDigit(c)
    ensures d < 10 && DigitChar(d) == c
  {
    c as int - '0' as int
  }

  /** The value of a string of decimal digits. */
  function DigitsValue(s: string): nat
    requires AllDigits(s)
  {
    if s == [] then 0 else 10 * DigitsValue(s[..|s| - 1]) + DigitValue(s[|s| - 1])
  }

  /** Decimal rendering of a natural number, as JavaScript's `String(n)`. */
  function NatToString(n: nat): (r: string)
    ensures |r| >= 1 && AllDigits(r)
    ensures |r| == 1 <==> n < 10
    ensures r[0] == '0' ==> n == 0
  {
    if n < 10 then [DigitChar(n)] else NatToString(n / 10) + [DigitChar(n % 10)]
  }

  /** Decimal rendering of an integer, with a leading `-` when negative. */
  function IntToString(i: int): (r: string)
    ensures |r| >= 1
    ensures forall k :: 0 <= k < |r| ==> IsDigit(r[k]) || r[k] == '-'
    ensures IsDigit(r[0]) <==> i >= 0
  {
    if i < 0 then "-" + NatToString(-i) else NatToString(i)
  }

  /** Reading back a rendered natural number gives the number. */
  lemma {:induction false} NatToStringRoundTrip(n: nat)
    ensures DigitsValue(NatToString(n)) == n
  {
    if n >= 10 {
      var s := NatToString(n);
      assert s[..|s| - 1] == NatToString(n / 10);
      NatToStringRoundTrip(n / 10);
    }
  }

  lemma NatToStringInjective(m: nat, n: nat)
    requires NatToString(m) == NatToString(n)
    ensures m == n
  {
    NatToStringRoundTrip(m);
    NatToStringRoundTrip(n);
  }

  /** A leading zero does not change the value of a digit string. */
  lemma {:induction false} LeadingZero(s: string)
    requires AllDigits(s)
    ensures AllDigits("0" + s) && DigitsValue("0" + s) == DigitsValue(s)
  {
    if s != [] {
      assert ("0" + s)[..|"0" + s| - 1] == "0" + s[..|s| - 1];
      LeadingZero(s[..|s| - 1]);
    }
  }

  /** The length of the run of digits from index `i` on. */
  function DigitsFrom(s: string, i: nat): (n: nat)
    requires i <= |s|
    ensures i + n <= |s|
    ensures forall k :: i <= k < i + n ==> IsDigit(s[k])
    ensures i + n == |s| || !IsDigit(s[i + n])
    decreases |s| - i
  {
    if i == |s| || !IsDigit(s[i]) then 0 else 1 + DigitsFrom(s, i + 1)
  }

  /** The length of the run of digits that starts `s`. */
  function LeadingDigits(s: string): (n: nat)
    ensures n <= |s| && AllDigits(s[..n])
    ensures n == |s| || !IsDigit(s[n])
  {
    var n := DigitsFrom(s, 0);
    assert forall k :: 0 <= k < n ==> s[..n][k] == s[k];
    n
  }

  lemma {:induction false} DigitsFromOfDigits(d: string, rest: string, i: nat)
    requires AllDigits(d) && i <= |d|
    requires rest == [] || !IsDigit(rest[0])
    ensures DigitsFrom(d + rest, i) == |d| - i
    decreases |d| - i
  {
    if i < |d| {
      assert (d + rest)[i] == d[i];
      DigitsFromOfDigits(d, rest, i + 1);
    } else if rest != [] {
      assert (d + rest)[i] == rest[0];
    }
  }

  lemma LeadingDigitsOfDigits(d: string, rest: string)
    requires AllDigits(d)
    requires rest == [] || !IsDigit(rest[0])
    ensures LeadingDigits(d + rest) == |d|
  {
    DigitsFromOfDigits(d, rest, 0);
  }

  /** The value of the digits that start `u`, or `None` when `u` does not start with one. */
  function ParseDigits(u: string): (r: Option<nat>)
    ensures r.None? <==> u == [] || !IsDigit(u[0])
  {
    var d := u[..LeadingDigits(u)];
    if d == [] then None else Some(DigitsValue(d))
  }

  /** Text that starts with a sign. */
  predicate Signed(t: string) {
    |t| > 0 && (t[0] == '-' || t[0] == '+')
  }

  /** `t` without the sign it starts with, if any. */
  function Unsigned(t: string): (u: string)
    ensures Signed(t) ==> u == t[1..]
    ensures !Signed(t) ==> u == t
  {
    if Signed(t) then t[1..] else t
  }

  /** An optional sign, then digits. */
  function ParseSigned(t: string): Option<int> {
    match ParseDigits(Unsigned(t))
    case None => None
    case Some(v) => Some(if Signed(t) && t[0] == '-' then -(v as int) else v)
  }

  /**
    JavaScript's `parseInt(s, 10)`: skip leading white space, read an optional
    sign, then the longest run of decimal digits; no digit at all is NaN (`None`).
  */
  function ParseInt(s: string): (r: Option<int>)
    ensures r.Some? ==> s != []
  {
    ParseSigned(TrimStart(JsWhitespace, s))
  }

  /** Digits followed by anything that does not start with a digit read as their value. */
  lemma ParseDigitsOf(d: string, rest: string)
    requires d != [] && AllDigits(d)
    requires rest == [] || !IsDigit(rest[0])
    ensures ParseDigits(d + rest) == Some(DigitsValue(d))
  {
    LeadingDigitsOfDigits(d, rest);
    assert (d + rest)[..|d|] == d;
  }

  /** Text that starts with a non-blank character is left as it is by `TrimStart`. */
  lemma TrimStartOfNonBlank(kind: Blank, s: string)
    requires s != [] && !IsBlank(kind, s[0])
    ensures TrimStart(kind, s) == s
  {
    assert LeadingBlanks(kind, s) == 0;
  }

  lemma ParseSignedOfDigits(d: string, rest: string)
    requires d != [] && AllDigits(d)
    requires rest == [] || !IsDigit(rest[0])
    ensures ParseSigned(d + rest) == Some(DigitsValue(d))
  {
    ParseDigitsOf(d, rest);
    assert (d + rest)[0] == d[0];
  }

  lemma ParseSignedOfNegative(d: string, rest: string)
    requires d != [] && AllDigits(d)
    requires rest == [] || !IsDigit(rest[0])
    ensures ParseSigned("-" + (d + rest)) == Some(-(DigitsValue(d) as int))
  {
    ParseDigitsOf(d, rest);
    ParseSignedOfMinus(d + rest);
  }

  lemma ParseSignedOfPlus(d: string, rest: string)
    requires d != [] && AllDigits(d)
    requires rest == [] || !IsDigit(rest[0])
    ensures ParseSigned("+" + (d + rest)) == Some(DigitsValue(d))
  {
    ParseDigitsOf(d, rest);
    var t := "+" + (d + rest);
    assert t[0] == '+';
    assert t[1..] == d + rest;
  }

  /** A leading `-` negates whatever digits follow it. */
  lemma ParseSignedOfMinus(u: string)
    ensures ParseSigned("-" + u) == if ParseDigits(u).Some? then Some(-(ParseDigits(u).value as int)) else None
  {
    var t := "-" + u;
    assert t[0] == '-';
    assert t[1..] == u;
  }

  /** A rendered integer starts with a digit or `-`, so there is nothing to trim before it. */
  lemma TrimStartOfRendered(i: int, rest: string)
    ensures TrimStart(JsWhitespace, IntToString(i) + rest) == IntToString(i) + rest
  {
    var r := IntToString(i);
    assert (r + rest)[0] == r[0];
    TrimStartOfNonBlank(JsWhitespace, r + rest);
  }

  lemma ParseSignedOfNat(n: nat, rest: string)
    requires rest == [] || !IsDigit(rest[0])
    ensures ParseSigned(NatToString(n) + rest) == Some(n)
  {
    NatToStringRoundTrip(n);
    ParseSignedOfDigits(NatToString(n), rest);
  }

  lemma ParseSignedOfNegatedNat(n: nat, rest: string)
    requires rest == [] || !IsDigit(rest[0])
    ensures ParseSigned("-" + NatToString(n) + rest) == Some(-(n as int))
  {
    NatToStringRoundTrip(n);
    assert "-" + NatToString(n) + rest == "-" + (NatToString(n) + rest);
    ParseSignedOfNegative(NatToString(n), rest);
  }

  lemma ParseSignedOfRendered(i: int, rest: string)
    requires rest == [] || !IsDigit(rest[0])
    ensures ParseSigned(IntToString(i) + rest) == Some(i)
  {
    if i < 0 {
      ParseSignedOfNegatedNat(-i, rest);
    } else {
      ParseSignedOfNat(i, rest);
    }
  }

  /**
    `parseInt` reads back a rendered integer, and stops at any text that follows
    it without a digit (the `-temp-` suffix of the admin panel's keys, say).
  */
  lemma ParseIntOfRendered(i: int, rest: string)
    requires rest == [] || !IsDigit(rest[0])
    ensures ParseInt(IntToString(i) + rest) == Some(i)
  {
    TrimStartOfRendered(i, rest);
    ParseSignedOfRendered(i, rest);
  }

  lemma ParseIntRoundTrip(i: int)
    ensures ParseInt(IntToString(i)) == Some(i)
  {
    ParseIntOfRendered(i, []);
    assert IntToString(i) + [] == IntToString(i);
  }

  lemma IntToStringInjective(i: int, j: int)
    requires IntToString(i) == IntToString(j)
    ensures i == j
  {
    ParseIntRoundTrip(i);
    ParseIntRoundTrip(j);
  }

  /** A string with no digit right after its blanks and sign parses to NaN. */
  lemma ParseIntNoDigits(s: string)
    requires s != [] && !IsDigit(s[0]) && !IsBlank(JsWhitespace, s[0]) && s[0] != '-' && s[0] != '+'
    ensures ParseInt(s) == None
  {
    TrimStartOfNonBlank(JsWhitespace, s);
    ParseSignedNoDigits(s);
  }

  lemma ParseSignedNoDigits(t: string)
    requires t != [] && !IsDigit(t[0]) && t[0] != '-' && t[0] != '+'
    ensures ParseSigned(t) == None
  {
  }
}
