/** The handful of Python `str` operations the render collector relies on,
    written over `seq<char>`: `str(int)`, `str.rjust` and
    `str.replace("\\", "/")`, together with a decimal reader used to state
    what the produced digits mean. */
module PyStr {

  /** `n` copies of `c` (Python's `c * n`). */
  function Repeat(c: char, n: nat): (r: string)
    ensures |r| == n
    ensures forall i :: 0 <= i < n ==> r[i] == c
  {
    if n == 0 then [] else [c] + Repeat(c, n - 1)
  }

  predicate IsDigit(c: char) {
    '0' <= c <= '9'
  }

  predicate AllDigits(s: string) {
    forall i :: 0 <= i < |s| ==> IsDigit(s[i])
  }

  function DigitChar(d: nat): (c: char)
    requires d < 10
    ensures IsDigit(c)
  {
    ('0' as int + d) as char
  }

  function DigitValue(c: char): (d: nat)
    requires IsDigit(c)
    ensures d < 10
  {
    c as int - '0' as int
  }

  /** Value of a string of decimal digits (most significant first);
      the empty string reads as 0, leading zeros are allowed. */
  function ParseDecimal(s: string): nat
    requires AllDigits(s)
  {
    if |s| == 0 then 0
    else ParseDecimal(s[..|s| - 1]) * 10 + DigitValue(s[|s| - 1])
  }

  function Pow10(k: nat): (p: nat)
    ensures p >= 1
  {
    if k == 0 then 1 else 10 * Pow10(k - 1)
  }

  /** Python's `str(n)` for a natural number: its decimal digits with no
      leading zero (except for 0 itself). */
  function NatToStr(n: nat): (s: string)
    ensures |s| >= 1 && AllDigits(s)
    ensures s[0] == '0' <==> n == 0
  {
    if n < 10 then [DigitChar(n)]
    else NatToStr(n / 10) + [DigitChar(n % 10)]
  }

  /** Python's `str(i)` for any integer: a `-` sign before the digits of
      a negative number. */
  function IntToStr(i: int): (s: string)
    ensures |s| >= 1
  {
    if i < 0 then "-" + NatToStr(-i) else NatToStr(i)
  }

  /** Python's `s.rjust(width, fill)`: `s` left-padded with `fill` up to
      `width` characters; never shortened. */
  function RJust(s: string, width: int, fill: char): (r: string)
    ensures |r| == if width > |s| then width else |s|
  {
    if width <= |s| then s else Repeat(fill, width - |s|) + s
  }

  /** `rjust` only adds `fill` characters in front: the original string
      ends the result and everything before it is `fill`. */
  lemma RJustPads(s: string, width: int, fill: char)
    ensures var r := RJust(s, width, fill);
      && r[|r| - |s|..] == s
      && forall i :: 0 <= i < |r| - |s| ==> r[i] == fill
  {
  }

  /** Python's `s.replace("\\", "/")`. */
  function Slashify(s: string): (r: string)
    ensures |r| == |s|
  {
    if |s| == 0 then []
    else Slashify(s[..|s| - 1]) + [if s[|s| - 1] == '\\' then '/' else s[|s| - 1]]
  }

  /** Each backslash becomes a slash; every other character is kept in
      place. */
  lemma {:induction false} SlashifyChars(s: string)
    ensures forall i :: 0 <= i < |s| ==> Slashify(s)[i] == (if s[i] == '\\' then '/' else s[i])
  {
    if |s| > 0 {
      SlashifyChars(s[..|s| - 1]);
    }
  }

  /** No backslash survives the replacement, the replacement distributes
      over concatenation, and a backslash-free string is left alone. */
  lemma SlashifyFacts(a: string, b: string)
    ensures '\\' !in Slashify(a)
    ensures Slashify(a + b) == Slashify(a) + Slashify(b)
    ensures '\\' !in a ==> Slashify(a) == a
  {
    SlashifyChars(a);
    SlashifyChars(b);
    SlashifyChars(a + b);
    var l, r := Slashify(a + b), Slashify(a) + Slashify(b);
    assert |l| == |r|;
    forall i | 0 <= i < |l|
      ensures l[i] == r[i]
    {
      if i < |a| {
        assert (a + b)[i] == a[i];
      } else {
        assert (a + b)[i] == b[i - |a|];
      }
    }
    if '\\' !in a {
      forall i | 0 <= i < |a|
        ensures Slashify(a)[i] == a[i]
      {
        assert a[i] != '\\';
      }
    }
  }

  /** `str(n)` round-trips: reading its digits back gives `n`. */
  lemma {:induction false} NatToStrParses(n: nat)
    ensures ParseDecimal(NatToStr(n)) == n
  {
    if n >= 10 {
      var s := NatToStr(n);
      assert s[..|s| - 1] == NatToStr(n / 10);
      NatToStrParses(n / 10);
    }
  }

  /** A string of zeros reads as 0. */
  lemma {:induction false} ZerosParse(k: nat)
    ensures AllDigits(Repeat('0', k)) && ParseDecimal(Repeat('0', k)) == 0
  {
    if k > 0 {
      var z := Repeat('0', k);
      assert z[..k - 1] == Repeat('0', k - 1);
      ZerosParse(k - 1);
    }
  }

  /** Leading zeros do not change the value of a decimal string. */
  lemma {:induction false} LeadingZerosParse(k: nat, s: string)
    requires AllDigits(s)
    ensures AllDigits(Repeat('0', k) + s)
    ensures ParseDecimal(Repeat('0', k) + s) == ParseDecimal(s)
  {
    var t := Repeat('0', k) + s;
    if |s| == 0 {
      assert t == Repeat('0', k);
      ZerosParse(k);
    } else {
      assert t[..|t| - 1] == Repeat('0', k) + s[..|s| - 1];
      LeadingZerosParse(k, s[..|s| - 1]);
    }
  }

  /** `str(n)` has at most `k` characters exactly when `n < 10^k`. */
  lemma {:induction false} NatToStrLength(n: nat, k: nat)
    requires k >= 1
    ensures |NatToStr(n)| <= k <==> n < Pow10(k)
  {
    if n >= 10 {
      if k == 1 {
        assert |NatToStr(n)| == |NatToStr(n / 10)| + 1;
      } else {
        NatToStrLength(n / 10, k - 1);
      }
    } else {
      PowAtLeastTen(k);
    }
  }

  lemma {:induction false} PowAtLeastTen(k: nat)
    requires k >= 1
    ensures Pow10(k) >= 10
  {
    if k > 1 {
      PowAtLeastTen(k - 1);
    }
  }

  /** `str(i)` denotes `i`: plain digits for a non-negative number, a `-`
      followed by the digits of `-i` for a negative one. */
  lemma IntToStrDenotes(i: int)
    ensures IntToStr(i)[0] == '-' <==> i < 0
    ensures i >= 0 ==> IntToStr(i) == NatToStr(i)
    ensures i >= 0 ==> AllDigits(IntToStr(i)) && ParseDecimal(IntToStr(i)) == i
    ensures i < 0 ==> IntToStr(i) == "-" + NatToStr(-i) && ParseDecimal(NatToStr(-i)) == -i
  {
    if i >= 0 {
      NatToStrParses(i);
    } else {
      NatToStrParses(-i);
    }
  }

  /** `str(i)` holds only digits and a `-` sign. */
  lemma IntToStrAlphabet(i: int)
    ensures forall j :: 0 <= j < |IntToStr(i)| ==> IsDigit(IntToStr(i)[j]) || IntToStr(i)[j] == '-'
  {
    if i < 0 {
      var digits := NatToStr(-i);
      forall j | 0 <= j < |IntToStr(i)|
        ensures IsDigit(IntToStr(i)[j]) || IntToStr(i)[j] == '-'
      {
        if j > 0 {
          assert IntToStr(i)[j] == digits[j - 1];
        }
      }
    }
  }
}
