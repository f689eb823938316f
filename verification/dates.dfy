/** Date normalisation: four accepted layouts, tried in order, to YYYY-MM-DD. */
module Dates {
  import opened Wrappers
  import opened Decimal
  import Text

  /** `str::split` on one character: always at least one part. */
  function Split(s: string, sep: char): (parts: seq<string>)
    ensures |parts| >= 1
  {
    if s == [] then [[]]
    else
      var rest := Split(s[1..], sep);
      if s[0] == sep then [[]] + rest else [[s[0]] + rest[0]] + rest[1..]
  }

  /** What `validate_date` accepts; no calendar is consulted. */
  predicate ValidDate(year: int, month: int, day: int)
  {
    1 <= month <= 12 && 1 <= day <= 31 && 1 <= year < 0x8000_0000
  }

  function Canonical(year: nat, month: nat, day: nat): string
  {
    Pad(year, 4) + "-" + Pad(month, 2) + "-" + Pad(day, 2)
  }

  function ValidateDate(year: int, month: nat, day: nat): Option<string>
  {
    if month == 0 || month > 12 || day == 0 || day > 31 || year < 1 then None
    else Some(Canonical(year, month, day))
  }

  function Validated(year: Option<int>, month: Option<nat>, day: Option<nat>): Option<string>
  {
    if year.Some? && month.Some? && day.Some? then ValidateDate(year.value, month.value, day.value) else None
  }

  function TrySlashMdy(s: string): Option<string>
  {
    var parts := Split(s, '/');
    if |parts| != 3 then None else Validated(ParseI32(parts[2]), ParseU32(parts[0]), ParseU32(parts[1]))
  }

  function TryDashDmy(s: string): Option<string>
  {
    var parts := Split(s, '-');
    if |parts| != 3 || |parts[2]| != 4 then None
    else Validated(ParseI32(parts[2]), ParseU32(parts[1]), ParseU32(parts[0]))
  }

  function TrySlashYmd(s: string): Option<string>
  {
    var parts := Split(s, '/');
    if |parts| != 3 || |parts[0]| != 4 then None
    else Validated(ParseI32(parts[0]), ParseU32(parts[1]), ParseU32(parts[2]))
  }

  function TryDashYmd(s: string): Option<string>
  {
    var parts := Split(s, '-');
    if |parts| != 3 || |parts[0]| != 4 then None
    else Validated(ParseI32(parts[0]), ParseU32(parts[1]), ParseU32(parts[2]))
  }

  function NormalizeDate(text: string): Option<string>
  {
    var s := Text.Trim(text);
    if TrySlashMdy(s).Some? then TrySlashMdy(s)
    else if TryDashDmy(s).Some? then TryDashDmy(s)
    else if TrySlashYmd(s).Some? then TrySlashYmd(s)
    else TryDashYmd(s)
  }

  // -- Printing and splitting ------------------------------------------------------------

  /** Three numerals around a separator. */
  function Three(a: string, b: string, c: string, sep: char): string
  {
    a + [sep] + b + [sep] + c
  }

  lemma {:induction false} SplitWhole(s: string, sep: char)
    requires forall i | 0 <= i < |s| :: s[i] != sep
    ensures Split(s, sep) == [s]
  {
    if s != [] {
      SplitWhole(s[1..], sep);
      assert [s[0]] + s[1..] == s;
    }
  }

  lemma {:induction false} SplitFirst(a: string, rest: string, sep: char)
    requires forall i | 0 <= i < |a| :: a[i] != sep
    ensures Split(a + [sep] + rest, sep) == [a] + Split(rest, sep)
  {
    var s := a + [sep] + rest;
    if a == [] {
      assert s[1..] == rest;
    } else {
      assert s[1..] == a[1..] + [sep] + rest;
      SplitFirst(a[1..], rest, sep);
      assert [s[0]] + a[1..] == a;
    }
  }

  /** Three numerals split back into themselves; on another separator they stay whole. */
  lemma ThreeSplits(a: string, b: string, c: string, sep: char, other: char)
    requires AllDigits(a) && AllDigits(b) && AllDigits(c) && !IsDigit(sep) && !IsDigit(other) && sep != other
    ensures Split(Three(a, b, c, sep), sep) == [a, b, c]
    ensures |Split(Three(a, b, c, sep), other)| == 1
  {
    assert Three(a, b, c, sep) == a + [sep] + (b + [sep] + c);
    SplitFirst(a, b + [sep] + c, sep);
    SplitFirst(b, c, sep);
    SplitWhole(c, sep);
    SplitWhole(Three(a, b, c, sep), other);
  }

  lemma ThreeTrimmed(a: string, b: string, c: string, sep: char)
    requires AllDigits(a) && AllDigits(c) && a != [] && c != []
    ensures Text.Trim(Three(a, b, c, sep)) == Three(a, b, c, sep)
  {
    var s := Three(a, b, c, sep);
    assert s[0] == a[0] && s[|s| - 1] == c[|c| - 1];
    Text.TrimIdempotent(s);
  }

  lemma NumeralParses(n: nat, width: nat)
    requires 0 < width && n < 0x8000_0000
    ensures AllDigits(Pad(n, width)) && Pad(n, width) != []
    ensures ParseU32(Pad(n, width)) == Some(n) && ParseI32(Pad(n, width)) == Some(n)
  {
    PadReads(n, width);
    PadParses(n, width);
  }

  /** What each layout's parser makes of three printed numerals between slashes. */
  lemma SlashLayouts(x: nat, wx: nat, y: nat, wy: nat, z: nat, wz: nat)
    requires 0 < wx && 0 < wy && 0 < wz && x < 0x8000_0000 && y < 0x8000_0000 && z < 0x8000_0000
    ensures var a, b, c := Pad(x, wx), Pad(y, wy), Pad(z, wz);
            var s := Three(a, b, c, '/');
            Text.Trim(s) == s
            && TrySlashMdy(s) == ValidateDate(z, x, y) && TryDashDmy(s) == None
            && TrySlashYmd(s) == (if |a| == 4 then ValidateDate(x, y, z) else None) && TryDashYmd(s) == None
  {
    NumeralParses(x, wx);
    NumeralParses(y, wy);
    NumeralParses(z, wz);
    ThreeSplits(Pad(x, wx), Pad(y, wy), Pad(z, wz), '/', '-');
    ThreeTrimmed(Pad(x, wx), Pad(y, wy), Pad(z, wz), '/');
  }

  /** The same between dashes. */
  lemma DashLayouts(x: nat, wx: nat, y: nat, wy: nat, z: nat, wz: nat)
    requires 0 < wx && 0 < wy && 0 < wz && x < 0x8000_0000 && y < 0x8000_0000 && z < 0x8000_0000
    ensures var a, b, c := Pad(x, wx), Pad(y, wy), Pad(z, wz);
            var s := Three(a, b, c, '-');
            Text.Trim(s) == s
            && TrySlashMdy(s) == None && TryDashDmy(s) == (if |c| == 4 then ValidateDate(z, y, x) else None)
            && TrySlashYmd(s) == None && TryDashYmd(s) == (if |a| == 4 then ValidateDate(x, y, z) else None)
  {
    NumeralParses(x, wx);
    NumeralParses(y, wy);
    NumeralParses(z, wz);
    ThreeSplits(Pad(x, wx), Pad(y, wy), Pad(z, wz), '-', '/');
    ThreeTrimmed(Pad(x, wx), Pad(y, wy), Pad(z, wz), '-');
  }

  // -- Round trips -----------------------------------------------------------------------

  lemma Pow10Values()
    ensures Pow10(2) == 100 && Pow10(4) == 10000
  {
    assert Pow10(1) == 10 && Pow10(3) == 10 * Pow10(2);
  }

  /** White space around a date does not matter. */
  lemma PaddedDate(before: string, s: string, after: string)
    requires Text.AllSpace(before) && Text.AllSpace(after)
    ensures NormalizeDate(before + s + after) == NormalizeDate(s)
  {
    Text.TrimPadded(before, s, after);
  }

  /** Three numerals between slashes, however padded, are month, day and year if they can be, and
      otherwise year, month and day if the first has four digits and they can be. */
  lemma SlashDates(x: nat, wx: nat, y: nat, wy: nat, z: nat, wz: nat)
    requires 0 < wx && 0 < wy && 0 < wz && x < 0x8000_0000 && y < 0x8000_0000 && z < 0x8000_0000
    ensures NormalizeDate(Three(Pad(x, wx), Pad(y, wy), Pad(z, wz), '/'))
            == if 1 <= x <= 12 && 1 <= y <= 31 && 1 <= z then Some(Canonical(z, x, y))
               else if |Pad(x, wx)| == 4 && 1 <= x && 1 <= y <= 12 && 1 <= z <= 31 then Some(Canonical(x, y, z))
               else None
  {
    SlashLayouts(x, wx, y, wy, z, wz);
  }

  /** Between dashes, they are day, month and year if the last has four digits and they can be, and
      otherwise year, month and day if the first has four digits and they can be. */
  lemma DashDates(x: nat, wx: nat, y: nat, wy: nat, z: nat, wz: nat)
    requires 0 < wx && 0 < wy && 0 < wz && x < 0x8000_0000 && y < 0x8000_0000 && z < 0x8000_0000
    ensures NormalizeDate(Three(Pad(x, wx), Pad(y, wy), Pad(z, wz), '-'))
            == if |Pad(z, wz)| == 4 && 1 <= x <= 31 && 1 <= y <= 12 && 1 <= z then Some(Canonical(z, y, x))
               else if |Pad(x, wx)| == 4 && 1 <= x && 1 <= y <= 12 && 1 <= z <= 31 then Some(Canonical(x, y, z))
               else None
  {
    DashLayouts(x, wx, y, wy, z, wz);
  }

  /** MM/DD/YYYY reads back for every valid date. */
  lemma MdyRoundTrip(year: nat, month: nat, day: nat)
    requires ValidDate(year, month, day)
    ensures NormalizeDate(Three(Pad(month, 2), Pad(day, 2), Pad(year, 4), '/')) == Some(Canonical(year, month, day))
  {
    SlashLayouts(month, 2, day, 2, year, 4);
  }

  /** DD-MM-YYYY reads back exactly for years of four digits. */
  lemma DmyRoundTrip(year: nat, month: nat, day: nat)
    requires ValidDate(year, month, day)
    ensures NormalizeDate(Three(Pad(day, 2), Pad(month, 2), Pad(year, 4), '-')) == Some(Canonical(year, month, day))
            <==> year <= 9999
  {
    Pow10Values();
    DashLayouts(day, 2, month, 2, year, 4);
    PadLength(year, 4);
  }

  /** YYYY-MM-DD reads back exactly for years of four digits. */
  lemma YmdDashRoundTrip(year: nat, month: nat, day: nat)
    requires ValidDate(year, month, day)
    ensures NormalizeDate(Canonical(year, month, day)) == (if year <= 9999 then Some(Canonical(year, month, day)) else None)
  {
    Pow10Values();
    DashLayouts(year, 4, month, 2, day, 2);
    PadLength(year, 4);
    PadLength(day, 2);
    assert Three(Pad(year, 4), Pad(month, 2), Pad(day, 2), '-') == Canonical(year, month, day);
  }

  lemma DashedSlices(a: string, b: string, c: string)
    requires |a| == 4 && |b| == |c| == 2
    ensures var s := a + "-" + b + "-" + c;
            |s| == 10 && s[..4] == a && s[4] == '-' && s[5..7] == b && s[7] == '-' && s[8..10] == c
  {
    var s := a + "-" + b + "-" + c;
    assert forall i | 0 <= i < 4 :: s[i] == a[i];
    assert forall i | 0 <= i < 2 :: s[5 + i] == b[i] && s[8 + i] == c[i];
  }

  lemma CanonicalFields(y: nat, m: nat, d: nat)
    requires y <= 9999 && m <= 99 && d <= 99
    ensures var s := Canonical(y, m, d);
            |s| == 10 && s[..4] == Pad(y, 4) && s[4] == '-' && s[5..7] == Pad(m, 2) && s[7] == '-' && s[8..10] == Pad(d, 2)
  {
    Pow10Values();
    PadLength(y, 4);
    PadLength(m, 2);
    PadLength(d, 2);
    DashedSlices(Pad(y, 4), Pad(m, 2), Pad(d, 2));
  }

  lemma PadInjective(a: nat, b: nat, width: nat)
    requires Pad(a, width) == Pad(b, width)
    ensures a == b
  {
    PadReads(a, width);
    PadReads(b, width);
  }

  lemma CanonicalInjective(y: nat, m: nat, d: nat, y': nat, m': nat, d': nat)
    requires y <= 9999 && y' <= 9999 && m <= 99 && m' <= 99 && d <= 99 && d' <= 99
    requires Canonical(y, m, d) == Canonical(y', m', d')
    ensures y == y' && m == m' && d == d'
  {
    CanonicalFields(y, m, d);
    CanonicalFields(y', m', d');
    PadInjective(y, y', 4);
    PadInjective(m, m', 2);
    PadInjective(d, d', 2);
  }

  /** YYYY/MM/DD reads back exactly for years 13 to 9999, and for the few dates up to year 12
      that read the same as MM/DD/YYYY: the month-first layout is tried before it. */
  lemma YmdSlashRoundTrip(year: nat, month: nat, day: nat)
    requires ValidDate(year, month, day)
    ensures NormalizeDate(Three(Pad(year, 4), Pad(month, 2), Pad(day, 2), '/')) == Some(Canonical(year, month, day))
            <==> 13 <= year <= 9999 || year == month == day
  {
    Pow10Values();
    SlashLayouts(year, 4, month, 2, day, 2);
    PadLength(year, 4);
    if year <= 12 && Canonical(day, year, month) == Canonical(year, month, day) {
      CanonicalInjective(day, year, month, year, month, day);
    }
  }

  // -- Idempotence -----------------------------------------------------------------------

  /** The date transform: what cannot be read stays as it is. */
  function DateTransform(s: string): string
  {
    match NormalizeDate(s)
    case Some(date) => date
    case None => s
  }

  /** Whatever the normaliser returns is the canonical form of a valid date. */
  lemma NormalizedIsCanonical(s: string) returns (year: nat, month: nat, day: nat)
    requires NormalizeDate(s).Some?
    ensures ValidDate(year, month, day) && NormalizeDate(s).value == Canonical(year, month, day)
  {
    var t := Text.Trim(s);
    var slash, dash := Split(t, '/'), Split(t, '-');
    if TrySlashMdy(t).Some? {
      year, month, day := ParseI32(slash[2]).value, ParseU32(slash[0]).value, ParseU32(slash[1]).value;
    } else if TryDashDmy(t).Some? {
      year, month, day := ParseI32(dash[2]).value, ParseU32(dash[1]).value, ParseU32(dash[0]).value;
    } else if TrySlashYmd(t).Some? {
      year, month, day := ParseI32(slash[0]).value, ParseU32(slash[1]).value, ParseU32(slash[2]).value;
    } else {
      year, month, day := ParseI32(dash[0]).value, ParseU32(dash[1]).value, ParseU32(dash[2]).value;
    }
  }

  /** Normalising a date twice is normalising it once, on every string. */
  lemma DateIdempotent(s: string)
    ensures DateTransform(DateTransform(s)) == DateTransform(s)
  {
    if NormalizeDate(s).Some? {
      var year, month, day := NormalizedIsCanonical(s);
      YmdDashRoundTrip(year, month, day);
    }
  }
}
