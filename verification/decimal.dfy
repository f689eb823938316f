/** Decimal numerals: printing, zero padding and the integer parsing of the source's language. */
module Decimal {
  import opened Wrappers

  predicate IsDigit(c: char) { '0' <= c <= '9' }

  function DigitValue(c: char): nat
    requires IsDigit(c)
  {
    (c - '0') as nat
  }

  function DigitChar(d: nat): (c: char)
    requires d < 10
    ensures IsDigit(c) && DigitValue(c) == d
  {
    '0' + d as char
  }

  predicate AllDigits(s: string) { forall i | 0 <= i < |s| :: IsDigit(s[i]) }

  function ValueOf(s: string): nat
    requires AllDigits(s)
  {
    if s == [] then 0 else 10 * ValueOf(s[..|s| - 1]) + DigitValue(s[|s| - 1])
  }

  function Print(n: nat): string
  {
    if n < 10 then [DigitChar(n)] else Print(n / 10) + [DigitChar(n % 10)]
  }

  function Zeros(k: nat): (s: string)
    ensures |s| == k && forall i | 0 <= i < k :: s[i] == '0'
  {
    if k == 0 then [] else Zeros(k - 1) + ['0']
  }

  /** The numeral, padded with zeros on the left to at least `width`. */
  function Pad(n: nat, width: nat): string
  {
    var s := Print(n);
    if |s| >= width then s else Zeros(width - |s|) + s
  }

  function Pow10(k: nat): nat { if k == 0 then 1 else 10 * Pow10(k - 1) }

  lemma {:induction false} PrintReads(n: nat)
    ensures AllDigits(Print(n)) && Print(n) != [] && ValueOf(Print(n)) == n
  {
    if n >= 10 {
      PrintReads(n / 10);
      assert Print(n)[..|Print(n)| - 1] == Print(n / 10);
    }
  }

  lemma {:induction false} PrintLength(n: nat, k: nat)
    requires 0 < k
    ensures |Print(n)| <= k <==> n < Pow10(k)
  {
    if n >= 10 {
      if k == 1 {
        PrintReads(n / 10);
      } else {
        PrintLength(n / 10, k - 1);
      }
    } else {
      Pow10AtLeastTen(k);
    }
  }

  lemma {:induction false} Pow10AtLeastTen(k: nat)
    requires 0 < k
    ensures Pow10(k) >= 10
  {
    if k > 1 {
      Pow10AtLeastTen(k - 1);
    }
  }

  lemma {:induction false} LeadingZeros(k: nat, s: string)
    requires AllDigits(s)
    ensures AllDigits(Zeros(k) + s) && ValueOf(Zeros(k) + s) == ValueOf(s)
  {
    if s == [] {
      if k > 0 {
        LeadingZeros(k - 1, []);
        assert Zeros(k) + [] == Zeros(k) && Zeros(k)[..k - 1] == Zeros(k - 1) == Zeros(k - 1) + [];
      }
    } else {
      LeadingZeros(k, s[..|s| - 1]);
      assert (Zeros(k) + s)[..|Zeros(k) + s| - 1] == Zeros(k) + s[..|s| - 1];
    }
  }

  lemma PadLength(n: nat, width: nat)
    requires 0 < width
    ensures |Pad(n, width)| >= width
    ensures |Pad(n, width)| == width <==> n < Pow10(width)
  {
    PrintLength(n, width);
  }

  /** A padded numeral is made of digits, and reads back. */
  lemma PadReads(n: nat, width: nat)
    ensures AllDigits(Pad(n, width)) && Pad(n, width) != [] && ValueOf(Pad(n, width)) == n
  {
    PrintReads(n);
    if |Print(n)| < width {
      LeadingZeros(width - |Print(n)|, Print(n));
    }
  }

  /** `str::parse::<u32>`: an optional plus sign, then digits, within range. */
  function ParseU32(s: string): Option<nat>
  {
    var digits := if |s| > 1 && s[0] == '+' then s[1..] else s;
    if digits == [] || !AllDigits(digits) || ValueOf(digits) > 0xFFFF_FFFF then None else Some(ValueOf(digits))
  }

  /** `str::parse::<i32>`: an optional sign, then digits, within range. */
  function ParseI32(s: string): Option<int>
  {
    var negative := |s| > 1 && s[0] == '-';
    var digits := if |s| > 1 && (s[0] == '+' || s[0] == '-') then s[1..] else s;
    if digits == [] || !AllDigits(digits) then None
    else
      var magnitude: int := ValueOf(digits);
      var value := if negative then -magnitude else magnitude;
      if -0x8000_0000 <= value < 0x8000_0000 then Some(value) else None
  }

  /** Padded numerals parse back. */
  lemma PadParses(n: nat, width: nat)
    requires 0 < width
    ensures n <= 0xFFFF_FFFF ==> ParseU32(Pad(n, width)) == Some(n)
    ensures n < 0x8000_0000 ==> ParseI32(Pad(n, width)) == Some(n)
  {
    PadReads(n, width);
    assert IsDigit(Pad(n, width)[0]);
  }

  /** An unsigned numeral is read exactly when it is digits, perhaps after a plus sign, in range. */
  lemma ParseU32Exactly(s: string, n: nat)
    ensures ParseU32(s) == Some(n)
            <==> n <= 0xFFFF_FFFF && exists digits :: (s == digits || s == "+" + digits) && digits != "" && AllDigits(digits) && ValueOf(digits) == n
  {
    if ParseU32(s) == Some(n) {
      var digits := if |s| > 1 && s[0] == '+' then s[1..] else s;
      assert s == digits || s == "+" + digits;
      assert digits != "" && AllDigits(digits) && ValueOf(digits) == n;
    }
    if digits :| (s == digits || s == "+" + digits) && digits != "" && AllDigits(digits) && ValueOf(digits) == n {
      if s != digits {
        assert s[0] == '+' && s[1..] == digits;
      } else {
        assert IsDigit(s[0]);
      }
    }
  }

  /** The same with a sign, which a minus makes count. */
  lemma ParseI32Exactly(s: string, n: int)
    ensures ParseI32(s) == Some(n)
            <==> -0x8000_0000 <= n <= 0x7FFF_FFFF
                 && exists digits :: digits != "" && AllDigits(digits)
                      && (if s == "-" + digits then n + ValueOf(digits) == 0 else (s == digits || s == "+" + digits) && n == ValueOf(digits))
  {
    if ParseI32(s) == Some(n) {
      var digits := if |s| > 1 && (s[0] == '+' || s[0] == '-') then s[1..] else s;
      assert s == digits || s == [s[0]] + digits;
      assert AllDigits(digits);
      if s == "-" + digits {
        assert s[0] == '-';
      } else {
        assert (s == digits || s == "+" + digits) && n == ValueOf(digits);
      }
    }
    if digits :| digits != "" && AllDigits(digits)
                 && (if s == "-" + digits then n + ValueOf(digits) == 0 else (s == digits || s == "+" + digits) && n == ValueOf(digits)) {
      if s == digits {
        assert IsDigit(s[0]);
      } else {
        assert s[1..] == digits;
      }
    }
  }
}
