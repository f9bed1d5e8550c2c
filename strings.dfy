/** The few operations of Python's `str` that the record table uses: lower-casing, `in`,
    `endswith`, `replace(p, "")`, `split('.')[-1]` and the `{idx:04d}` format. */
module Strings {

  predicate NoDuplicates<T(==)>(s: seq<T>)
  {
    forall i, j :: 0 <= i < j < |s| ==> s[i] != s[j]
  }

  lemma NoDuplicatesAppend<T>(s: seq<T>, x: T)
    requires NoDuplicates(s) && x !in s
    ensures NoDuplicates(s + [x])
  {
    forall i, j | 0 <= i < j < |s| + 1
      ensures (s + [x])[i] != (s + [x])[j]
    {
      if j == |s| {
        assert (s + [x])[i] == s[i] && s[i] in s;
      }
    }
  }

  /** Lower-cases ASCII letters and the upper-case letters of Latin-1 (U+00C0..U+00DE, except the sign ×)
      as `str.lower()` does, and the two other capitals whose lower case is a letter of an import keyword:
      the capital sharp s ẞ (U+1E9E), lowered to ß, and the Kelvin sign (U+212A), lowered to k. Every other
      character is left as it is. */
  function LowerChar(c: char): char
  {
    if 'A' <= c <= 'Z' || ('\U{00C0}' <= c <= '\U{00DE}' && c != '\U{00D7}') then (c as int + 32) as char
    else if c == '\U{1E9E}' then '\U{00DF}'
    else if c == '\U{212A}' then 'k'
    else c
  }

  function Lower(s: string): (r: string)
    ensures |r| == |s|
  {
    seq(|s|, i requires 0 <= i < |s| => LowerChar(s[i]))
  }

  lemma LowerIdempotent(s: string)
    ensures Lower(Lower(s)) == Lower(s)
  {
    assert forall i :: 0 <= i < |s| ==> LowerChar(LowerChar(s[i])) == LowerChar(s[i]);
  }

  predicate StartsWith(s: string, p: string)
  {
    |p| <= |s| && s[..|p|] == p
  }

  predicate EndsWith(s: string, p: string)
  {
    |p| <= |s| && s[|s| - |p|..] == p
  }

  /** Python's `p in s`: `p` occurs somewhere in `s`. */
  predicate Contains(s: string, p: string)
    decreases |s|
  {
    StartsWith(s, p) || (|s| > 0 && Contains(s[1..], p))
  }

  /** `p` occurs in `s` starting at position `i`. */
  ghost predicate OccursAt(s: string, p: string, i: int)
  {
    0 <= i && i + |p| <= |s| && s[i..i + |p|] == p
  }

  /** `p in s` holds exactly when `p` occurs at some position of `s`. */
  lemma {:induction false} ContainsAt(s: string, p: string)
    ensures Contains(s, p) <==> exists i :: OccursAt(s, p, i)
    decreases |s|
  {
    if Contains(s, p) {
      if StartsWith(s, p) {
        assert OccursAt(s, p, 0);
      } else {
        ContainsAt(s[1..], p);
        var j :| OccursAt(s[1..], p, j);
        assert s[1..][j..j + |p|] == s[j + 1..j + 1 + |p|];
        assert OccursAt(s, p, j + 1);
      }
    }
    if exists i :: OccursAt(s, p, i) {
      var i :| OccursAt(s, p, i);
      if i == 0 {
        assert StartsWith(s, p);
      } else {
        assert s[1..][i - 1..i - 1 + |p|] == s[i..i + |p|];
        assert OccursAt(s[1..], p, i - 1);
        ContainsAt(s[1..], p);
      }
    }
  }

  /** Every character of a contained string occurs in the containing one. */
  lemma {:induction false} ContainsChars(s: string, p: string, ch: char)
    requires Contains(s, p) && ch in p
    ensures ch in s
    decreases |s|
  {
    if StartsWith(s, p) {
      assert ch in s[..|p|];
    } else {
      ContainsChars(s[1..], p, ch);
    }
  }

  /** Python's `s.replace(p, "")`: the occurrences of `p` found scanning left to right, each
      scan resuming after the occurrence just removed, are all deleted. The result is shorter
      exactly when `p` occurs, and equal to `s` otherwise. */
  function RemoveAll(s: string, p: string): (r: string)
    requires |p| > 0
    ensures |r| <= |s|
    ensures Contains(s, p) <==> |r| < |s|
    ensures !Contains(s, p) ==> r == s
    decreases |s|
  {
    if |s| == 0 then ""
    else if StartsWith(s, p) then RemoveAll(s[|p|..], p)
    else [s[0]] + RemoveAll(s[1..], p)
  }

  /** How many occurrences of `p` a left-to-right scan finds, resuming after each one found. */
  function Occurrences(s: string, p: string): nat
    requires |p| > 0
    decreases |s|
  {
    if |s| == 0 then 0
    else if StartsWith(s, p) then 1 + Occurrences(s[|p|..], p)
    else Occurrences(s[1..], p)
  }

  /** Every occurrence the scan finds is removed, and nothing else: the result is shorter by exactly
      that many copies of `p`. */
  lemma {:induction false} RemoveAllCount(s: string, p: string)
    requires |p| > 0
    ensures |RemoveAll(s, p)| == |s| - |p| * Occurrences(s, p)
    decreases |s|
  {
    if |s| > 0 {
      if StartsWith(s, p) {
        var n := Occurrences(s[|p|..], p);
        RemoveAllCount(s[|p|..], p);
        assert |RemoveAll(s, p)| == |RemoveAll(s[|p|..], p)|;
        assert Occurrences(s, p) == 1 + n;
        MulStep(|p|, n);
      } else {
        RemoveAllCount(s[1..], p);
        assert |RemoveAll(s, p)| == 1 + |RemoveAll(s[1..], p)|;
        assert Occurrences(s, p) == Occurrences(s[1..], p);
      }
    }
  }

  lemma MulStep(a: int, n: int)
    ensures a * (1 + n) == a + a * n
  {
  }

  /** The scan finds an occurrence exactly when `p` occurs. */
  lemma {:induction false} OccurrencesContains(s: string, p: string)
    requires |p| > 0
    ensures Occurrences(s, p) > 0 <==> Contains(s, p)
    decreases |s|
  {
    if |s| > 0 && !StartsWith(s, p) {
      OccurrencesContains(s[1..], p);
    }
  }

  /** The text after the last '.', or all of `s` when it has none: Python's `s.split('.')[-1]`. */
  function AfterLastDot(s: string): (r: string)
    ensures '.' !in r
    ensures |r| <= |s| && s[|s| - |r|..] == r
    ensures '.' !in s ==> r == s
    ensures '.' in s ==> |r| < |s| && s[|s| - |r| - 1] == '.'
  {
    if |s| == 0 then ""
    else if s[|s| - 1] == '.' then ""
    else AfterLastDot(s[..|s| - 1]) + [s[|s| - 1]]
  }

  /** Whatever precedes the final dot, the part after it is the extension. */
  lemma AfterLastDotOfJoin(x: string, e: string)
    requires '.' !in e
    ensures AfterLastDot(x + "." + e) == e
  {
    var s := x + "." + e;
    assert s[|x|] == '.';
    assert s[|s| - |e|..] == e;
  }

  predicate IsDigit(c: char)
  {
    '0' <= c <= '9'
  }

  predicate AllDigits(s: string)
  {
    forall i :: 0 <= i < |s| ==> IsDigit(s[i])
  }

  function DigitChar(d: nat): (c: char)
    requires d < 10
    ensures IsDigit(c)
  {
    ('0' as int + d) as char
  }

  /** The decimal notation of `n`, without leading zeros: Python's `str(n)`. */
  function Decimal(n: nat): (r: string)
    ensures |r| >= 1 && AllDigits(r)
    decreases n
  {
    if n < 10 then [DigitChar(n)] else Decimal(n / 10) + [DigitChar(n % 10)]
  }

  function Zeros(k: nat): (r: string)
    ensures |r| == k && AllDigits(r)
  {
    seq(k, _ => '0')
  }

  /** Python's `f"{n:04d}"`: the decimal notation of `n`, left-padded with zeros to at least four digits. */
  function ZeroPad4(n: nat): string
  {
    var d := Decimal(n);
    if |d| < 4 then Zeros(4 - |d|) + d else d
  }

  /** The number a string of decimal digits denotes. */
  function ValueOf(s: string): nat
    requires AllDigits(s)
  {
    if s == [] then 0 else 10 * ValueOf(s[..|s| - 1]) + (s[|s| - 1] as int - '0' as int)
  }

  lemma {:induction false} ValueOfDecimal(n: nat)
    ensures ValueOf(Decimal(n)) == n
    decreases n
  {
    if n >= 10 {
      var d := Decimal(n);
      assert d[..|d| - 1] == Decimal(n / 10);
      ValueOfDecimal(n / 10);
    }
  }

  lemma {:induction false} ValueOfZeros(k: nat)
    ensures ValueOf(Zeros(k)) == 0
  {
    if k > 0 {
      assert Zeros(k)[..k - 1] == Zeros(k - 1);
      ValueOfZeros(k - 1);
    }
  }

  /** Leading zeros do not change the value. */
  lemma {:induction false} ValueOfPadded(k: nat, s: string)
    requires AllDigits(s)
    ensures AllDigits(Zeros(k) + s) && ValueOf(Zeros(k) + s) == ValueOf(s)
    decreases |s|
  {
    var t := Zeros(k) + s;
    if s == [] {
      assert t == Zeros(k);
      ValueOfZeros(k);
    } else {
      assert t[..|t| - 1] == Zeros(k) + s[..|s| - 1];
      ValueOfPadded(k, s[..|s| - 1]);
    }
  }

  function Pow10(k: nat): nat
  {
    if k == 0 then 1 else 10 * Pow10(k - 1)
  }

  lemma {:induction false} DecimalShort(n: nat, k: nat)
    requires 1 <= k && n < Pow10(k)
    ensures |Decimal(n)| <= k
    decreases k
  {
    if n >= 10 {
      DecimalShort(n / 10, k - 1);
    }
  }

  /** The padded index reads back as the index, has at least four digits, and exactly four below 10000. */
  lemma ZeroPad4Value(n: nat)
    ensures AllDigits(ZeroPad4(n)) && ValueOf(ZeroPad4(n)) == n
    ensures |ZeroPad4(n)| >= 4
    ensures n < 10000 ==> |ZeroPad4(n)| == 4
  {
    var d := Decimal(n);
    ValueOfDecimal(n);
    if |d| < 4 {
      ValueOfPadded(4 - |d|, d);
    }
    if n < 10000 {
      assert Pow10(4) == 10000;
      DecimalShort(n, 4);
    }
  }

  /** Different indices are never padded to the same text. */
  lemma ZeroPad4Injective(a: nat, b: nat)
    requires ZeroPad4(a) == ZeroPad4(b)
    ensures a == b
  {
    ZeroPad4Value(a);
    ZeroPad4Value(b);
  }
}
