/** The handful of Python string operations the program relies on:
    decimal rendering and zero padding (`f"{n:03d}"`), `str.split(sep)`,
    `sep.join(parts)` and `str.lower()` on ASCII letters. Each comes with
    the inverse or the reference property it is checked against. */
module Text {

  /** Every character of `s` is a decimal digit. */
  predicate IsDigits(s: string) {
    forall i :: 0 <= i < |s| ==> '0' <= s[i] <= '9'
  }

  /** `c` does not occur in `s`. */
  predicate Free(s: string, c: char) {
    forall i :: 0 <= i < |s| ==> s[i] != c
  }

  function DigitChar(d: nat): (c: char)
    requires d < 10
    ensures '0' <= c <= '9'
  {
    (48 + d) as char
  }

  function DigitValue(c: char): (d: nat)
    requires '0' <= c <= '9'
    ensures d < 10
  {
    c as int - 48
  }

  /** The value of a string of decimal digits, as Python's `int(s)` reads a
      non-empty one (leading zeros allowed); reading the empty string as 0
      is this function's own convention, where `int("")` would raise. */
  function ParseDecimal(s: string): nat
    requires IsDigits(s)
  {
    if |s| == 0 then 0
    else ParseDecimal(s[..|s| - 1]) * 10 + DigitValue(s[|s| - 1])
  }

  /** `str(n)` for a natural number: its decimal digits, no leading zero. */
  function NatToString(n: nat): (s: string)
    ensures 1 <= |s| && IsDigits(s)
    ensures ParseDecimal(s) == n
    ensures s[0] == '0' ==> n == 0
  {
    if n < 10 then [DigitChar(n)]
    else
      var s := NatToString(n / 10) + [DigitChar(n % 10)];
      assert s[..|s| - 1] == NatToString(n / 10);
      s
  }

  /** `n` zeros. */
  function Zeros(n: nat): (s: string)
    ensures |s| == n && IsDigits(s)
    ensures forall i :: 0 <= i < n ==> s[i] == '0'
  {
    if n == 0 then [] else ['0'] + Zeros(n - 1)
  }

  /** A leading zero does not change the value of a digit string. */
  lemma {:induction false} ParseLeadingZero(s: string)
    requires IsDigits(s)
    ensures IsDigits(['0'] + s) && ParseDecimal(['0'] + s) == ParseDecimal(s)
  {
    if |s| > 0 {
      var t := ['0'] + s;
      assert t[..|t| - 1] == ['0'] + s[..|s| - 1];
      ParseLeadingZero(s[..|s| - 1]);
    }
  }

  lemma {:induction false} ParseLeadingZeros(k: nat, s: string)
    requires IsDigits(s)
    ensures IsDigits(Zeros(k) + s) && ParseDecimal(Zeros(k) + s) == ParseDecimal(s)
  {
    if k > 0 {
      var t := Zeros(k - 1) + s;
      ParseLeadingZeros(k - 1, s);
      ParseLeadingZero(t);
      assert Zeros(k) == ['0'] + Zeros(k - 1);
      assert Zeros(k) + s == ['0'] + t;
    } else {
      assert Zeros(k) + s == s;
    }
  }

  /** Python's `f"{n:0{width}d}"` for a natural number: the digits of `n`,
      left-padded with zeros up to `width` characters, never truncated.
      Reading the result back as a number gives `n` again. */
  function ZeroPad(n: nat, width: nat): (s: string)
    ensures IsDigits(s) && ParseDecimal(s) == n
    ensures |s| == if |NatToString(n)| < width then width else |NatToString(n)|
    ensures |NatToString(n)| <= width ==> |s| == width
  {
    var digits := NatToString(n);
    var pad := if |digits| < width then width - |digits| else 0;
    ParseLeadingZeros(pad, digits);
    Zeros(pad) + digits
  }

  /** Zero padding to a fixed width loses nothing: distinct numbers give
      distinct strings. */
  lemma ZeroPadInjective(m: nat, n: nat, width: nat)
    requires ZeroPad(m, width) == ZeroPad(n, width)
    ensures m == n
  {
  }

  /** Numbers below 10^(width) fill exactly `width` characters. */
  lemma {:induction false} NatToStringLength(n: nat, width: nat)
    requires 1 <= width && n < Pow10(width)
    ensures |NatToString(n)| <= width
  {
    if n >= 10 {
      NatToStringLength(n / 10, width - 1);
    }
  }

  function Pow10(k: nat): (p: nat)
    ensures p >= 1
  {
    if k == 0 then 1 else 10 * Pow10(k - 1)
  }

  /** Python's `s.split(sep)` for a non-empty separator: the pieces between
      non-overlapping occurrences of `sep`, scanned from the left; the
      empty string splits into one empty piece. */
  function Split(s: string, sep: string): (parts: seq<string>)
    requires |sep| > 0
    ensures |parts| >= 1
    decreases |s|
  {
    if |s| == 0 then [""]
    else if sep <= s then [""] + Split(s[|sep|..], sep)
    else
      var rest := Split(s[1..], sep);
      [[s[0]] + rest[0]] + rest[1..]
  }

  /** Python's `sep.join(parts)`. */
  function Join(parts: seq<string>, sep: string): (s: string)
  {
    if |parts| == 0 then ""
    else if |parts| == 1 then parts[0]
    else parts[0] + sep + Join(parts[1..], sep)
  }

  /** A piece free of the separator's first character splits to itself. */
  lemma {:induction false} SplitFree(a: string, sep: string)
    requires |sep| > 0 && Free(a, sep[0])
    ensures Split(a, sep) == [a]
  {
    if |a| > 0 {
      assert !(sep <= a) by { assert a[0] != sep[0]; }
      SplitFree(a[1..], sep);
      assert [a[0]] + a[1..] == a;
    }
  }

  /** Splitting `a + sep + b`, where `a` is free of the separator's first
      character, yields `a` followed by the pieces of `b`. */
  lemma {:induction false} SplitCons(a: string, sep: string, b: string)
    requires |sep| > 0 && Free(a, sep[0])
    ensures Split(a + sep + b, sep) == [a] + Split(b, sep)
  {
    var s := a + sep + b;
    if |a| == 0 {
      assert s == sep + b;
      assert sep <= s;
      assert s[|sep|..] == b;
    } else {
      assert s[0] == a[0] && a[0] != sep[0];
      assert !(sep <= s);
      assert s[1..] == a[1..] + sep + b;
      SplitCons(a[1..], sep, b);
      assert [a[0]] + a[1..] == a;
    }
  }

  /** For a one-character separator, splitting distributes over an
      occurrence of the separator, whatever the two sides contain. */
  lemma {:induction false} SplitAround(x: string, c: char, y: string)
    ensures Split(x + [c] + y, [c]) == Split(x, [c]) + Split(y, [c])
  {
    var s := x + [c] + y;
    if |x| == 0 {
      assert s == [c] + y;
      assert [c] <= s;
      assert s[1..] == y;
    } else {
      assert s[1..] == x[1..] + [c] + y;
      SplitAround(x[1..], c, y);
      if x[0] == c {
        assert [c] <= s && [c] <= x;
      } else {
        assert !([c] <= s) && !([c] <= x);
      }
    }
  }

  /** `split` undoes `join` when no part contains the separator's first
      character: `", ".join(names).split(", ") == names`. */
  lemma {:induction false} SplitJoin(parts: seq<string>, sep: string)
    requires |sep| > 0 && |parts| >= 1
    requires forall k :: 0 <= k < |parts| ==> Free(parts[k], sep[0])
    ensures Split(Join(parts, sep), sep) == parts
  {
    if |parts| == 1 {
      SplitFree(parts[0], sep);
    } else {
      SplitCons(parts[0], sep, Join(parts[1..], sep));
      SplitJoin(parts[1..], sep);
      assert [parts[0]] + parts[1..] == parts;
    }
  }

  /** Python's `c.lower()` on one character, for the ASCII range. */
  function LowerChar(c: char): (l: char)
    ensures 'A' <= c <= 'Z' ==> l != c && 'a' <= l <= 'z'
    ensures !('A' <= c <= 'Z') ==> l == c
  {
    if 'A' <= c <= 'Z' then (c as int + 32) as char else c
  }

  /** Python's `s.lower()`, ASCII letters only. */
  function LowerAscii(s: string): (l: string)
    ensures |l| == |s|
    ensures forall i :: 0 <= i < |s| ==> l[i] == LowerChar(s[i])
  {
    if |s| == 0 then "" else [LowerChar(s[0])] + LowerAscii(s[1..])
  }

  /** The last position of `c` in `s`, or -1 (Python's `s.rfind(c)`). */
  function RFind(s: string, c: char): (i: int)
    ensures -1 <= i < |s|
    ensures 0 <= i ==> s[i] == c
    ensures forall j :: i < j < |s| ==> s[j] != c
  {
    if |s| == 0 then -1
    else if s[|s| - 1] == c then |s| - 1
    else RFind(s[..|s| - 1], c)
  }
}
