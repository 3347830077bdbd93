/** Decimal numerals, as std::to_string and the Go driver's intToString write them. */
module Decimal {

  predicate IsDigit(c: char) {
    '0' <= c <= '9'
  }

  function Digit(d: nat): char
    requires d < 10
  {
    '0' + d as char
  }

  function Dec(n: nat): string {
    if n < 10 then [Digit(n)] else Dec(n / 10) + [Digit(n % 10)]
  }

  predicate AllDigits(s: string) {
    forall k :: 0 <= k < |s| ==> IsDigit(s[k])
  }

  function Value(s: string): nat
    requires AllDigits(s)
  {
    if s == "" then 0 else 10 * Value(s[..|s| - 1]) + (s[|s| - 1] - '0') as nat
  }

  lemma {:induction false} DecValue(n: nat)
    ensures AllDigits(Dec(n)) && Dec(n) != "" && Value(Dec(n)) == n
    ensures n > 0 ==> Dec(n)[0] != '0'
  {
    if n >= 10 {
      DecValue(n / 10);
      assert Dec(n)[..|Dec(n)| - 1] == Dec(n / 10);
    } else {
      assert Dec(n)[..0] == "";
    }
  }

  /** The numerals without superfluous zeros are exactly the results of `Dec`. */
  lemma {:induction false} CanonicalIsDec(s: string)
    requires s != "" && AllDigits(s) && (s[0] == '0' ==> |s| == 1)
    ensures s == Dec(Value(s))
  {
    var front := s[..|s| - 1];
    if front == "" {
      assert Value(front) == 0;
      assert s == [Digit((s[0] - '0') as nat)];
    } else {
      CanonicalIsDec(front);
      ValuePositive(front);
      assert s == front + [s[|s| - 1]];
    }
  }

  lemma {:induction false} ValuePositive(s: string)
    requires s != "" && AllDigits(s) && s[0] != '0'
    ensures Value(s) > 0
  {
    if |s| > 1 {
      ValuePositive(s[..|s| - 1]);
    }
  }

  lemma {:induction false} LongerIsTenfold(s: string, t: string)
    requires AllDigits(s + t) && t != ""
    ensures AllDigits(s) && Value(s + t) >= 10 * Value(s)
  {
    assert AllDigits(s) by { assert forall k :: 0 <= k < |s| ==> s[k] == (s + t)[k]; }
    var front := t[..|t| - 1];
    assert (s + t)[..|s + t| - 1] == s + front;
    if front == "" {
      assert s + front == s;
    } else {
      assert AllDigits(s + front) by { assert forall k :: 0 <= k < |s + front| ==> (s + front)[k] == (s + t)[k]; }
      LongerIsTenfold(s, front);
    }
  }

  /** A numeral that properly extends another denotes at least ten times as much. */
  lemma PrefixIsTenth(j: nat, k: nat)
    requires Dec(j) <= Dec(k)
    ensures j == k || k >= 10 * j
  {
    DecValue(j);
    DecValue(k);
    var tail := Dec(k)[|Dec(j)|..];
    assert Dec(k) == Dec(j) + tail;
    if tail != "" {
      LongerIsTenfold(Dec(j), tail);
    } else {
      assert Dec(k) == Dec(j);
    }
  }

  lemma {:induction false} LengthGrows(j: nat, k: nat)
    requires j <= k
    ensures |Dec(j)| <= |Dec(k)|
  {
    if j >= 10 {
      LengthGrows(j / 10, k / 10);
    }
  }

  /** intToString: fill a buffer of 20 bytes from the end; nothing for a negative number. */
  method IntToString(value: int) returns (r: string)
    requires -0x8000_0000_0000_0000 <= value < 0x8000_0000_0000_0000
    ensures value < 0 ==> r == ""
    ensures value >= 0 ==> r == Dec(value)
  {
    if value == 0 {
      return "0";
    }
    if value < 0 {
      return "";
    }
    var buf := new char[20];
    var pos: nat, left: nat := buf.Length, value;
    assert Pow10(6) == 1_000_000;
    assert Pow10(12) == 1_000_000_000_000;
    assert Pow10(18) == 1_000_000_000_000_000_000;
    LengthBound(value, 19);
    while left > 0
      invariant pos <= 20
      invariant Dec(value) == (if left == 0 then "" else Dec(left)) + buf[pos..]
      decreases left
    {
      DecValue(left);
      pos := pos - 1;
      buf[pos] := Digit(left % 10);
      assert buf[pos..] == [Digit(left % 10)] + buf[pos + 1..];
      left := left / 10;
    }
    r := buf[pos..];
  }

  function Pow10(n: nat): nat {
    if n == 0 then 1 else 10 * Pow10(n - 1)
  }

  lemma {:induction false} LengthBound(n: nat, digits: nat)
    requires digits >= 1 && n < Pow10(digits)
    ensures |Dec(n)| <= digits
  {
    if n >= 10 {
      LengthBound(n / 10, digits - 1);
    }
  }
}
