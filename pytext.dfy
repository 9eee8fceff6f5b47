/**
 * The few Python `str` built-ins the scripts rely on, written out so that their
 * edge cases (negative slice bounds, `-1` for "not found", Unicode whitespace,
 * UTF-8 byte counts) are part of the model rather than assumed.
 */
module PyText {
  import opened Wrappers

  function Min(a: int, b: int): int { if a <= b then a else b }
  function Max(a: int, b: int): int { if a <= b then b else a }

  /** `c.isspace()`: the characters `str.strip()` removes when called without an argument. */
  predicate IsSpace(c: char) {
    var n := c as int;
    (9 <= n <= 13) || (28 <= n <= 32) || n == 0x85 || n == 0xA0 || n == 0x1680
    || (0x2000 <= n <= 0x200A) || n == 0x2028 || n == 0x2029 || n == 0x202F
    || n == 0x205F || n == 0x3000
  }

  predicate IsSlash(c: char) { c == '/' }

  /** Index of the first character of `s` that `drop` keeps (`|s|` if none). */
  function StripStart(s: string, drop: char -> bool): (i: nat)
    ensures i <= |s|
  {
    if s == [] || !drop(s[0]) then 0 else 1 + StripStart(s[1..], drop)
  }

  lemma {:induction false} StripStartSpec(s: string, drop: char -> bool)
    ensures forall k :: 0 <= k < StripStart(s, drop) ==> drop(s[k])
    ensures StripStart(s, drop) < |s| ==> !drop(s[StripStart(s, drop)])
  {
    if s != [] && drop(s[0]) {
      StripStartSpec(s[1..], drop);
      forall k | 1 <= k < StripStart(s, drop) ensures drop(s[k]) {
        assert s[k] == s[1..][k - 1];
      }
    }
  }

  /** One past the index of the last character of `s` that `drop` keeps (0 if none). */
  function StripEnd(s: string, drop: char -> bool): (j: nat)
    ensures j <= |s|
  {
    if s == [] || !drop(s[|s| - 1]) then |s| else StripEnd(s[..|s| - 1], drop)
  }

  lemma {:induction false} StripEndSpec(s: string, drop: char -> bool)
    ensures forall k :: StripEnd(s, drop) <= k < |s| ==> drop(s[k])
    ensures 0 < StripEnd(s, drop) ==> !drop(s[StripEnd(s, drop) - 1])
  {
    if s != [] && drop(s[|s| - 1]) {
      StripEndSpec(s[..|s| - 1], drop);
      forall k | StripEnd(s, drop) <= k < |s| - 1 ensures drop(s[k]) {
        assert s[k] == s[..|s| - 1][k];
      }
    }
  }

  /** `s.strip(chars)`: removes the longest prefix and the longest suffix of dropped characters. */
  function StripWhere(s: string, drop: char -> bool): string {
    var i, j := StripStart(s, drop), StripEnd(s, drop);
    if i < j then s[i..j] else []
  }

  /** `s.strip()` */
  function Strip(s: string): string { StripWhere(s, IsSpace) }

  /** Stripping leaves nothing exactly when every character is dropped. */
  lemma StripEmptyIff(s: string, drop: char -> bool)
    ensures StripWhere(s, drop) == [] <==> forall k :: 0 <= k < |s| ==> drop(s[k])
  {
    var i, j := StripStart(s, drop), StripEnd(s, drop);
    StripStartSpec(s, drop);
    StripEndSpec(s, drop);
    if i < |s| {
      assert !drop(s[i]);
      assert i < j;
    }
  }

  /** A non-empty stripped string starts and ends with kept characters. */
  lemma StripEnds(s: string, drop: char -> bool)
    ensures var r := StripWhere(s, drop);
      r != [] ==> !drop(r[0]) && !drop(r[|r| - 1])
  {
    StripStartSpec(s, drop);
    StripEndSpec(s, drop);
  }

  /** A string whose ends are not dropped is left alone, so stripping twice changes nothing. */
  lemma StripFixed(r: string, drop: char -> bool)
    requires r == [] || (!drop(r[0]) && !drop(r[|r| - 1]))
    ensures StripWhere(r, drop) == r
  {
    if r != [] {
      assert StripStart(r, drop) == 0;
      assert StripEnd(r, drop) == |r|;
    }
  }

  lemma StripIdempotent(s: string)
    ensures Strip(Strip(s)) == Strip(s)
  {
    StripEnds(s, IsSpace);
    StripFixed(Strip(s), IsSpace);
  }

  /** Where the kept part of a suffix `s[m..]` ends, the kept part of `s` ends too. */
  lemma StripEndOfSuffix(s: string, m: nat, drop: char -> bool)
    requires m <= |s|
    requires 0 < StripEnd(s[m..], drop)
    ensures StripEnd(s, drop) == m + StripEnd(s[m..], drop)
  {
    var t := s[m..];
    var j', j := StripEnd(t, drop), StripEnd(s, drop);
    StripEndSpec(t, drop);
    StripEndSpec(s, drop);
    assert t[j' - 1] == s[m + j' - 1];
  }

  /** Where the kept part of a suffix `s[m..]` starts, `s` has already started keeping. */
  lemma StripStartOfSuffix(s: string, m: nat, drop: char -> bool)
    requires m <= |s|
    requires StripStart(s[m..], drop) < |s| - m
    ensures StripStart(s, drop) <= m + StripStart(s[m..], drop)
  {
    var t := s[m..];
    StripStartSpec(t, drop);
    StripStartSpec(s, drop);
    assert t[StripStart(t, drop)] == s[m + StripStart(t, drop)];
  }

  /**
   * Stripping a suffix `s[m..]` that still holds a kept character gives a suffix
   * of `s.strip()`: both end at the last kept character of `s`.
   */
  lemma StripOfSuffix(s: string, m: nat, drop: char -> bool)
    requires m <= |s|
    requires StripWhere(s[m..], drop) != []
    ensures var whole, tail := StripWhere(s, drop), StripWhere(s[m..], drop);
      |tail| <= |whole| && whole[|whole| - |tail|..] == tail
  {
    var t := s[m..];
    var i', j' := StripStart(t, drop), StripEnd(t, drop);
    var i, j := StripStart(s, drop), StripEnd(s, drop);
    assert i' < j';
    StripEndOfSuffix(s, m, drop);
    StripStartOfSuffix(s, m, drop);
    SuffixSlices(s, m, i, j, i', j', StripWhere(s, drop), StripWhere(t, drop));
  }

  lemma SuffixSlices<T>(s: seq<T>, m: nat, i: nat, j: nat, i': nat, j': nat, whole: seq<T>, tail: seq<T>)
    requires m <= |s| && i <= m + i' && i' < j' && j == m + j' <= |s|
    requires whole == s[i..j] && tail == s[m..][i'..j']
    ensures |tail| <= |whole| && whole[|whole| - |tail|..] == tail
  {
    assert s[m..][i'..j'] == s[m + i'..j];
    assert s[i..j][m + i' - i..] == s[m + i'..j];
  }

  /** `pat` occurs in `s` at index `k`. */
  predicate MatchAt(s: string, pat: string, k: int) {
    0 <= k && k + |pat| <= |s| && s[k..k + |pat|] == pat
  }

  /** `s.rfind(pat)`: the last index at which `pat` occurs, or -1. */
  function RFind(s: string, pat: string): (r: int)
    ensures r == -1 || (0 <= r && r + |pat| <= |s|)
    decreases |s|
  {
    if |s| < |pat| then -1
    else if s[|s| - |pat|..] == pat then |s| - |pat|
    else RFind(s[..|s| - 1], pat)
  }

  /** `RFind` finds an occurrence, and none lies after it. */
  lemma {:induction false} RFindSpec(s: string, pat: string)
    ensures RFind(s, pat) == -1 || MatchAt(s, pat, RFind(s, pat))
    ensures forall k :: RFind(s, pat) < k ==> !MatchAt(s, pat, k)
    decreases |s|
  {
    if |s| < |pat| {
    } else if s[|s| - |pat|..] == pat {
      assert s[|s| - |pat|..|s|] == s[|s| - |pat|..];
    } else {
      var init := s[..|s| - 1];
      var r := RFind(init, pat);
      RFindSpec(init, pat);
      forall k | r < k && MatchAt(s, pat, k) ensures false {
        if k + |pat| < |s| {
          MatchInPrefix(s, pat, k, |s| - 1);
        }
      }
      if r != -1 { MatchInPrefix(s, pat, r, |s| - 1); }
    }
  }

  /** An occurrence that ends within the first `n` characters is one of `s[..n]` too. */
  lemma MatchInPrefix(s: string, pat: string, k: int, n: nat)
    requires 0 <= k && k + |pat| <= n <= |s|
    ensures MatchAt(s[..n], pat, k) <==> MatchAt(s, pat, k)
  {
    assert s[..n][k..k + |pat|] == s[k..k + |pat|];
  }

  /** `StripStart` is the one index before which everything is dropped and at which a kept character stands. */
  lemma StripStartAt(s: string, drop: char -> bool, k: nat)
    requires k < |s| && !drop(s[k])
    requires forall m :: 0 <= m < k ==> drop(s[m])
    ensures StripStart(s, drop) == k
  {
    StripStartSpec(s, drop);
  }

  /** `StripEnd` is the one index after which everything is dropped, just past a kept character. */
  lemma StripEndAt(s: string, drop: char -> bool, k: nat)
    requires 0 < k <= |s| && !drop(s[k - 1])
    requires forall m :: k <= m < |s| ==> drop(s[m])
    ensures StripEnd(s, drop) == k
  {
    StripEndSpec(s, drop);
  }

  /** Padding of dropped characters on both sides is exactly what stripping removes. */
  lemma StripPadded(a: string, d: string, b: string, drop: char -> bool)
    requires forall m :: 0 <= m < |a| ==> drop(a[m])
    requires forall m :: 0 <= m < |b| ==> drop(b[m])
    requires d != [] && !drop(d[0]) && !drop(d[|d| - 1])
    ensures StripWhere(a + d + b, drop) == d
  {
    var s := a + d + b;
    StripStartAt(s, drop, |a|);
    forall m | |a| + |d| <= m < |s| ensures drop(s[m]) {
      assert s[m] == b[m - |a| - |d|];
    }
    StripEndAt(s, drop, |a| + |d|);
    assert s[|a|..|a| + |d|] == d;
  }

  /** `s[:k]`, including Python's reading of a negative `k` as "all but the last -k". */
  function PrefixTo<T>(s: seq<T>, k: int): (r: seq<T>)
    ensures r <= s
    ensures 0 <= k <= |s| ==> |r| == k
    ensures |s| <= k ==> r == s
    ensures k < 0 ==> |r| == Max(0, |s| + k)
  {
    if 0 <= k then s[..Min(k, |s|)] else s[..Max(0, |s| + k)]
  }

  /** `s.split(sep)[1]`: the text between the first and the second `sep` (or the end). */
  function FieldAfterFirst(s: string, sep: char): (r: string)
    requires sep in s
    ensures sep !in r
    ensures var i := FirstIndex(s, sep);
      && r <= s[i + 1..]
      && (i + 1 + |r| == |s| || s[i + 1 + |r|] == sep)
  {
    var i := FirstIndex(s, sep);
    var rest := s[i + 1..];
    if sep in rest then rest[..FirstIndex(rest, sep)] else rest
  }

  function FirstIndex(s: string, c: char): (i: nat)
    requires c in s
    ensures i < |s| && s[i] == c && c !in s[..i]
  {
    if s[0] == c then 0 else 1 + FirstIndex(s[1..], c)
  }

  predicate IsDigit(c: char) { '0' <= c <= '9' }

  predicate AllDigits(s: string) { forall k :: 0 <= k < |s| ==> IsDigit(s[k]) }

  function DigitValue(c: char): nat requires IsDigit(c) { c as int - '0' as int }

  function DigitChar(d: nat): (c: char)
    requires d < 10
    ensures IsDigit(c) && DigitValue(c) == d
  {
    ['0', '1', '2', '3', '4', '5', '6', '7', '8', '9'][d]
  }

  /** The value of a non-empty run of decimal digits. */
  function DigitsValue(s: string): nat
    requires AllDigits(s)
  {
    if s == [] then 0 else 10 * DigitsValue(s[..|s| - 1]) + DigitValue(s[|s| - 1])
  }

  /**
   * `int(s)` on an already stripped string: an optional sign and at least one
   * ASCII digit; anything else raises `ValueError`, modelled as `None`.
   */
  function ParseInt(s: string): (r: Option<int>)
    ensures r.Some? <==> (s != [] && AllDigits(s)) || (|s| >= 2 && (s[0] == '+' || s[0] == '-') && AllDigits(s[1..]))
    ensures r.Some? && s[0] != '-' ==> 0 <= r.value
  {
    if s != [] && (s[0] == '+' || s[0] == '-') then
      var d := s[1..];
      if d != [] && AllDigits(d) then
        Some(if s[0] == '-' then 0 - DigitsValue(d) else DigitsValue(d))
      else None
    else if s != [] && AllDigits(s) then Some(DigitsValue(s))
    else None
  }

  /** `str(n)` for a non-negative integer. */
  function NatToString(n: nat): (s: string)
    ensures s != [] && AllDigits(s)
  {
    if n < 10 then [DigitChar(n)] else NatToString(n / 10) + [DigitChar(n % 10)]
  }

  /** `int(str(n)) == n`. */
  lemma {:induction false} ParseNatToString(n: nat)
    ensures DigitsValue(NatToString(n)) == n
    ensures ParseInt(NatToString(n)) == Some(n)
  {
    var s := NatToString(n);
    if n >= 10 {
      ParseNatToString(n / 10);
      assert s[..|s| - 1] == NatToString(n / 10);
    }
    assert s[0] != '+' && s[0] != '-' by { assert IsDigit(s[0]); }
  }

  predicate IsAscii(s: string) { forall k :: 0 <= k < |s| ==> s[k] as int < 0x80 }

  /** Number of bytes UTF-8 needs for one character. */
  function Utf8Width(c: char): nat {
    var n := c as int;
    if n < 0x80 then 1 else if n < 0x800 then 2 else if n < 0x10000 then 3 else 4
  }

  /** `len(s.encode())`: never less than the character count, equal to it exactly for ASCII. */
  function Utf8Len(s: string): (n: nat)
    ensures |s| <= n
    ensures n == |s| <==> IsAscii(s)
  {
    if s == [] then 0
    else
      var init := s[..|s| - 1];
      assert IsAscii(s) <==> IsAscii(init) && s[|s| - 1] as int < 0x80 by {
        assert forall k :: 0 <= k < |init| ==> init[k] == s[k];
      }
      Utf8Len(init) + Utf8Width(s[|s| - 1])
  }

  /** Sequence concatenation regroups freely; called where a proof rebrackets a sum of pieces. */
  lemma AppendAssoc<T>(a: seq<T>, b: seq<T>, c: seq<T>)
    ensures a + (b + c) == (a + b) + c
  {
  }

  /** The first `i + 1` elements are the first `i` and then element `i`. */
  lemma TakeOneMore<T>(s: seq<T>, i: nat)
    requires i < |s|
    ensures s[..i + 1] == s[..i] + [s[i]]
  {
  }

  /** A non-empty sequence is its initial part followed by its last element. */
  lemma SplitLast<T>(s: seq<T>)
    requires s != []
    ensures s == s[..|s| - 1] + [s[|s| - 1]]
  {
  }

  /** Dropping the last element of `a + b`, for non-empty `b`, drops it from `b`. */
  lemma AppendInit<T>(a: seq<T>, b: seq<T>)
    requires b != []
    ensures (a + b)[..|a + b| - 1] == a + b[..|b| - 1]
    ensures (a + b)[|a + b| - 1] == b[|b| - 1]
  {
  }

  /** The empty sequence is a unit of concatenation. */
  lemma AppendEmpty<T>(s: seq<T>)
    ensures [] + s == s && s + [] == s
  {
  }

  lemma SnocTwo<T>(x: T, y: T)
    ensures [x] + [y] == [x, y]
  {
  }

  lemma SnocThree<T>(x: T, y: T, z: T)
    ensures [x, y] + [z] == [x, y, z]
  {
  }

  /** Slicing from 0 or up to the length keeps the whole sequence. */
  lemma WholeSlice<T>(s: seq<T>)
    ensures s[0..] == s && s[..|s|] == s
  {
  }

  /** A prefix of a slice is a shorter slice at the same start. */
  lemma PrefixOfSlice<T>(s: seq<T>, i: nat, j: nat, k: nat)
    requires i <= j <= |s| && k <= j - i
    ensures s[i..j][..k] == s[i..i + k]
  {
  }
}
