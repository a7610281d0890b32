/**
 Calendar dates as (year, month, day) triples, their `yyyy-MM-dd` text form,
 and the day-before / day-after arithmetic that `new Date(y, m - 1, d - 1)`
 performs. The app compares `yyyy-MM-dd` strings with `<`; `FormatOrder`
 shows that this string order is the chronological order for four-digit years.
 */
module Dates {
  import opened Common

  datatype Date = Date(year: int, month: int, day: int)

  predicate IsLeap(y: int) {
    (y % 4 == 0 && y % 100 != 0) || y % 400 == 0
  }

  function DaysInMonth(y: int, m: int): (n: int)
    requires 1 <= m <= 12
    ensures 28 <= n <= 31
  {
    if m == 2 then (if IsLeap(y) then 29 else 28)
    else if m == 4 || m == 6 || m == 9 || m == 11 then 30
    else 31
  }

  /** A real calendar day with a four-digit year, the shape `format(date, 'yyyy-MM-dd')` produces. */
  predicate Valid(d: Date) {
    1000 <= d.year <= 9999 && 1 <= d.month <= 12 && 1 <= d.day <= DaysInMonth(d.year, d.month)
  }

  /** Chronological order. */
  predicate Before(a: Date, b: Date) {
    a.year < b.year
    || (a.year == b.year && a.month < b.month)
    || (a.year == b.year && a.month == b.month && a.day < b.day)
  }

  /** The calendar day before `d` (day 0 of a month rolls back into the previous month). */
  function PrevDay(d: Date): (r: Date)
    requires Valid(d) && d != Date(1000, 1, 1)
    ensures Valid(r) && Before(r, d)
  {
    if d.day > 1 then Date(d.year, d.month, d.day - 1)
    else if d.month > 1 then Date(d.year, d.month - 1, DaysInMonth(d.year, d.month - 1))
    else Date(d.year - 1, 12, 31)
  }

  /** The calendar day after `d`. */
  function NextDay(d: Date): (r: Date)
    requires Valid(d) && d != Date(9999, 12, 31)
    ensures Valid(r) && Before(d, r)
  {
    if d.day < DaysInMonth(d.year, d.month) then Date(d.year, d.month, d.day + 1)
    else if d.month < 12 then Date(d.year, d.month + 1, 1)
    else Date(d.year + 1, 1, 1)
  }

  /** Going back a day and then forward a day returns to the same date. */
  lemma NextOfPrev(d: Date)
    requires Valid(d) && d != Date(1000, 1, 1)
    ensures NextDay(PrevDay(d)) == d
  {
  }

  /** Going forward a day and then back a day returns to the same date. */
  lemma PrevOfNext(d: Date)
    requires Valid(d) && d != Date(9999, 12, 31)
    ensures PrevDay(NextDay(d)) == d
  {
  }

  /** The previous day is the latest date strictly before `d`. */
  lemma PrevDayIsLatestBefore(d: Date, e: Date)
    requires Valid(d) && d != Date(1000, 1, 1) && Valid(e) && Before(e, d)
    ensures e == PrevDay(d) || Before(e, PrevDay(d))
  {
  }

  // ---------------------------------------------------------------------------
  // Text form
  // ---------------------------------------------------------------------------

  /** The last `w` decimal digits of `n`, most significant first (`String(n).padStart(w, '0')` for small `n`). */
  function Digits(n: nat, w: nat): (r: string)
    ensures |r| == w
    decreases w
  {
    if w == 0 then [] else Digits(n / 10, w - 1) + [DigitChar(n % 10)]
  }

  function Pow10(w: nat): (p: nat)
    ensures p >= 1
  {
    if w == 0 then 1 else 10 * Pow10(w - 1)
  }

  /** Three fields joined by dashes, as `Format` lays them out. */
  function Dashed(y: string, m: string, d: string): string {
    y + "-" + m + "-" + d
  }

  /** `${y}-${pad2(m)}-${pad2(d)}` for a four-digit year. */
  function Format(d: Date): (s: string)
    requires Valid(d)
    ensures |s| == 10 && s[4] == '-' && s[7] == '-'
  {
    Dashed(Digits(d.year, 4), Digits(d.month, 2), Digits(d.day, 2))
  }

  /** Comparing two equal-length prefixes first, then the rest. */
  lemma {:induction false} StrLtConcat(x1: string, y1: string, x2: string, y2: string)
    requires |x1| == |x2|
    ensures StrLt(x1 + y1, x2 + y2) <==> (StrLt(x1, x2) || (x1 == x2 && StrLt(y1, y2)))
    decreases |x1|
  {
    if |x1| > 0 {
      assert (x1 + y1)[1..] == x1[1..] + y1;
      assert (x2 + y2)[1..] == x2[1..] + y2;
      if x1[0] == x2[0] {
        StrLtConcat(x1[1..], y1, x2[1..], y2);
        if x1[1..] == x2[1..] { assert x1 == x2; }
        if x1 == x2 { assert x1[1..] == x2[1..]; }
      } else {
        assert x1 != x2;
      }
    } else {
      assert x1 + y1 == y1 && x2 + y2 == y2;
    }
  }

  /** Fixed-width digit strings compare like the numbers they denote. */
  lemma {:induction false} DigitsOrder(a: nat, b: nat, w: nat)
    requires a < Pow10(w) && b < Pow10(w)
    ensures StrLt(Digits(a, w), Digits(b, w)) <==> a < b
    ensures Digits(a, w) == Digits(b, w) <==> a == b
    decreases w
  {
    if w == 0 {
    } else {
      var ha, hb := a / 10, b / 10;
      var la, lb := a % 10, b % 10;
      DigitsOrder(ha, hb, w - 1);
      StrLtConcat(Digits(ha, w - 1), [DigitChar(la)], Digits(hb, w - 1), [DigitChar(lb)]);
      assert a == 10 * ha + la && b == 10 * hb + lb;
      if Digits(a, w) == Digits(b, w) {
        assert Digits(a, w)[..w - 1] == Digits(ha, w - 1);
        assert Digits(b, w)[..w - 1] == Digits(hb, w - 1);
        assert Digits(a, w)[w - 1] == DigitChar(la);
      }
    }
  }

  /** Dash-joined fields of equal widths compare field by field, the first field first. */
  lemma DashedOrder(ya: string, ma: string, da: string, yb: string, mb: string, db: string)
    requires |ya| == |yb| && |ma| == |mb|
    ensures StrLt(Dashed(ya, ma, da), Dashed(yb, mb, db)) <==>
              StrLt(ya, yb) || (ya == yb && (StrLt(ma, mb) || (ma == mb && StrLt(da, db))))
  {
    assert Dashed(ya, ma, da) == ya + ("-" + (ma + ("-" + da)));
    assert Dashed(yb, mb, db) == yb + ("-" + (mb + ("-" + db)));
    StrLtConcat(ya, "-" + (ma + ("-" + da)), yb, "-" + (mb + ("-" + db)));
    StrLtConcat("-", ma + ("-" + da), "-", mb + ("-" + db));
    StrLtConcat(ma, "-" + da, mb, "-" + db);
    StrLtConcat("-", da, "-", db);
    StrLtIrreflexive("-");
  }

  /** Dash-joined fields of equal widths are equal exactly when every field is. */
  lemma DashedEqual(ya: string, ma: string, da: string, yb: string, mb: string, db: string)
    requires |ya| == |yb| && |ma| == |mb|
    ensures Dashed(ya, ma, da) == Dashed(yb, mb, db) <==> ya == yb && ma == mb && da == db
  {
    var sa, sb := Dashed(ya, ma, da), Dashed(yb, mb, db);
    if sa == sb {
      var y, m := |ya|, |ma|;
      assert sa[..y] == ya && sb[..y] == yb;
      assert sa[y + 1..y + 1 + m] == ma && sb[y + 1..y + 1 + m] == mb;
      assert sa[y + 2 + m..] == da && sb[y + 2 + m..] == db;
    }
  }

  /** `yyyy-MM-dd` strings of valid dates compare exactly like the dates themselves. */
  lemma FormatOrder(a: Date, b: Date)
    requires Valid(a) && Valid(b)
    ensures StrLt(Format(a), Format(b)) <==> Before(a, b)
    ensures Format(a) == Format(b) <==> a == b
  {
    assert Pow10(4) == 10000 && Pow10(2) == 100;
    DigitsOrder(a.year, b.year, 4);
    DigitsOrder(a.month, b.month, 2);
    DigitsOrder(a.day, b.day, 2);
    var ya, yb := Digits(a.year, 4), Digits(b.year, 4);
    var ma, mb := Digits(a.month, 2), Digits(b.month, 2);
    var da, db := Digits(a.day, 2), Digits(b.day, 2);
    assert Format(a) == Dashed(ya, ma, da) && Format(b) == Dashed(yb, mb, db);
    DashedOrder(ya, ma, da, yb, mb, db);
    DashedEqual(ya, ma, da, yb, mb, db);
  }

  // ---------------------------------------------------------------------------
  // Parsing the text form
  // ---------------------------------------------------------------------------

  predicate IsDigit(c: char) {
    '0' <= c <= '9'
  }

  predicate AllDigits(s: string) {
    forall i :: 0 <= i < |s| ==> IsDigit(s[i])
  }

  /** The number a string of decimal digits denotes. */
  function NumOf(s: string): (n: nat)
    requires AllDigits(s)
    ensures n < Pow10(|s|)
  {
    if |s| == 0 then 0
    else NumOf(s[..|s| - 1]) * 10 + (s[|s| - 1] as int - '0' as int)
  }

  /** Reading back fixed-width digits gives the number, when it fits the width. */
  lemma {:induction false} NumOfDigits(n: nat, w: nat)
    requires n < Pow10(w)
    ensures AllDigits(Digits(n, w))
    ensures NumOf(Digits(n, w)) == n
    decreases w
  {
    if w > 0 {
      assert n / 10 < Pow10(w - 1);
      NumOfDigits(n / 10, w - 1);
      var s := Digits(n, w);
      assert s[..w - 1] == Digits(n / 10, w - 1);
    }
  }

  /** Writing out a digit string's number at the string's width gives the string back. */
  lemma {:induction false} DigitsOfNum(s: string)
    requires AllDigits(s)
    ensures Digits(NumOf(s), |s|) == s
    decreases |s|
  {
    if |s| > 0 {
      var init := s[..|s| - 1];
      var d := s[|s| - 1] as int - '0' as int;
      DigitsOfNum(init);
      assert NumOf(s) / 10 == NumOf(init);
      assert NumOf(s) % 10 == d;
      assert s == init + [s[|s| - 1]];
    }
  }

  /** `yyyy-MM-dd` read as a calendar date; anything else (a wrong shape or a day that does not exist) is `None`. */
  function ParseDate(s: string): (r: Option<Date>)
    ensures r.Some? ==> Valid(r.value)
  {
    if |s| == 10 && s[4] == '-' && s[7] == '-' && AllDigits(s[..4]) && AllDigits(s[5..7]) && AllDigits(s[8..]) then
      var d := Date(NumOf(s[..4]), NumOf(s[5..7]), NumOf(s[8..]));
      if Valid(d) then Some(d) else None
    else None
  }

  /** The three fields of a formatted date, as the slices `ParseDate` reads. */
  lemma FormatSlices(d: Date)
    requires Valid(d)
    ensures Format(d)[..4] == Digits(d.year, 4)
    ensures Format(d)[5..7] == Digits(d.month, 2)
    ensures Format(d)[8..] == Digits(d.day, 2)
  {
  }

  /** Two valid dates' text forms share the year part exactly when the years are equal. */
  lemma FormatYearPart(a: Date, b: Date)
    requires Valid(a) && Valid(b)
    ensures Format(a)[..4] == Format(b)[..4] <==> a.year == b.year
  {
    assert Pow10(4) == 10000;
    FormatSlices(a);
    FormatSlices(b);
    DigitsOrder(a.year, b.year, 4);
  }

  /** Two valid dates' text forms share everything after the year exactly when month and day are equal. */
  lemma FormatDayOfYearPart(a: Date, b: Date)
    requires Valid(a) && Valid(b)
    ensures Format(a)[4..] == Format(b)[4..] <==> a.month == b.month && a.day == b.day
  {
    assert Pow10(2) == 100;
    DigitsOrder(a.month, b.month, 2);
    DigitsOrder(a.day, b.day, 2);
    var ma, mb, da, db := Digits(a.month, 2), Digits(b.month, 2), Digits(a.day, 2), Digits(b.day, 2);
    DashedAfterFirst(Digits(a.year, 4), ma, da);
    DashedAfterFirst(Digits(b.year, 4), mb, db);
    DashedEqual("", ma, da, "", mb, db);
  }

  /** What follows the first field of dash-joined fields is the rest joined the same way. */
  lemma DashedAfterFirst(y: string, m: string, d: string)
    ensures Dashed(y, m, d)[|y|..] == Dashed("", m, d)
  {
    var rest := "-" + m + "-" + d;
    assert Dashed(y, m, d) == y + rest;
    assert Dashed("", m, d) == rest;
  }

  /** Parsing the text form of a date gives the date back. */
  lemma ParseFormat(d: Date)
    requires Valid(d)
    ensures ParseDate(Format(d)) == Some(d)
  {
    assert Pow10(4) == 10000 && Pow10(2) == 100;
    FormatSlices(d);
    NumOfDigits(d.year, 4);
    NumOfDigits(d.month, 2);
    NumOfDigits(d.day, 2);
  }

  /** A string that parses is exactly the text form of the date it parses to. */
  lemma FormatParse(s: string)
    requires ParseDate(s).Some?
    ensures Format(ParseDate(s).value) == s
  {
    var d := ParseDate(s).value;
    DigitsOfNum(s[..4]);
    DigitsOfNum(s[5..7]);
    DigitsOfNum(s[8..]);
    assert s == s[..4] + "-" + s[5..7] + "-" + s[8..];
  }
}
