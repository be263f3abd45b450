/**
 The text of archive keys (crates/ma-persist/src/writer.rs): zero-padded dates, hours and part
 numbers, read back by `NextPart` and ordered as text by every listing.
 */
module Keys {
  import opened Types
  import opened Calendar

  ////////// Decimal digits

  function Digit(n: nat): char
    requires n < 10
  {
    "0123456789"[n]
  }

  function DigitValue(c: char): Option<nat> {
    if '0' <= c <= '9' then Some(c as int - '0' as int) else None
  }

  function Digits(n: nat): string {
    if n < 10 then [Digit(n)] else Digits(n / 10) + [Digit(n % 10)]
  }

  function Zeroes(n: nat): string {
    seq(n, i requires 0 <= i < n => '0')
  }

  /** At least `width` digits, zeroes first. */
  function Pad(n: nat, width: nat): string {
    var digits := Digits(n);
    if |digits| >= width then digits else Zeroes(width - |digits|) + digits
  }

  /** The number a text is, if it is all digits. */
  function Parsed(text: string): Option<nat> {
    if text == [] then None
    else
      var last := DigitValue(text[|text| - 1]);
      if |text| == 1 then last
      else
        var front := Parsed(text[..|text| - 1]);
        if front.Some? && last.Some? then Some(10 * front.value + last.value) else None
  }

  lemma DigitIsItsValue(n: nat)
    requires n < 10
    ensures DigitValue(Digit(n)) == Some(n)
  {
  }

  lemma {:induction false} DigitsParse(n: nat)
    ensures Digits(n) != [] && Parsed(Digits(n)) == Some(n)
  {
    if n < 10 {
      DigitIsItsValue(n);
    } else {
      DigitsParse(n / 10);
      DigitIsItsValue(n % 10);
      var text := Digits(n);
      assert text[..|text| - 1] == Digits(n / 10);
    }
  }

  lemma {:induction false} ZeroesParse(k: nat, text: string)
    requires Parsed(text).Some?
    ensures Parsed(Zeroes(k) + text) == Parsed(text)
    decreases |text|
  {
    var all := Zeroes(k) + text;
    if |text| == 1 {
      AllZeroes(k);
      assert all[..|all| - 1] == Zeroes(k);
      if k == 0 {
        assert all == text;
      }
    } else {
      ZeroesParse(k, text[..|text| - 1]);
      assert all[..|all| - 1] == Zeroes(k) + text[..|text| - 1];
    }
  }

  lemma {:induction false} AllZeroes(k: nat)
    ensures k > 0 ==> Parsed(Zeroes(k)) == Some(0)
  {
    if k > 1 {
      AllZeroes(k - 1);
      assert Zeroes(k)[..k - 1] == Zeroes(k - 1);
    }
  }

  /** A padded number reads back as itself. */
  lemma PadParses(n: nat, width: nat)
    ensures Parsed(Pad(n, width)) == Some(n) && Pad(n, width) != []
  {
    DigitsParse(n);
    if |Digits(n)| < width {
      ZeroesParse(width - |Digits(n)|, Digits(n));
    }
  }

  ////////// Text order

  /** Order of keys in a listing: at the first difference, or by being a proper prefix. */
  ghost predicate TextBefore(a: string, b: string) {
    exists k | 0 <= k <= |a| && k <= |b| :: DiffersAt(a, b, k)
  }

  ghost predicate DiffersAt(a: string, b: string, k: nat)
    requires k <= |a| && k <= |b|
  {
    a[..k] == b[..k] && k < |b| && (k == |a| || (k < |a| && a[k] < b[k]))
  }

  lemma TextOrderIsStrict(a: string, b: string)
    requires TextBefore(a, b)
    ensures !TextBefore(b, a) && a != b
  {
    var k :| 0 <= k <= |a| && k <= |b| && DiffersAt(a, b, k);
    PrefixesAgree(a, b, k);
    forall j | 0 <= j <= |b| && j <= |a|
      ensures !DiffersAt(b, a, j)
    {
      PrefixesAgree(b, a, j);
    }
  }

  lemma PrefixesAgree(a: string, b: string, j: nat)
    requires j <= |a| && j <= |b|
    ensures a[..j] == b[..j] ==> forall i | 0 <= i < j :: a[i] == b[i]
  {
    if a[..j] == b[..j] {
      assert forall i | 0 <= i < j :: a[..j][i] == a[i] && b[..j][i] == b[i];
    }
  }

  lemma CommonPrefixIsKept(p: string, a: string, b: string)
    requires TextBefore(a, b)
    ensures TextBefore(p + a, p + b)
  {
    var k :| 0 <= k <= |a| && k <= |b| && DiffersAt(a, b, k);
    assert (p + a)[..|p| + k] == p + a[..k] && (p + b)[..|p| + k] == p + b[..k];
    assert DiffersAt(p + a, p + b, |p| + k);
  }

  /** What follows does not matter once two equally long texts differ. */
  lemma DifferenceDecides(a: string, b: string, x: string, y: string)
    requires |a| == |b| && TextBefore(a, b)
    ensures TextBefore(a + x, b + y)
  {
    var k :| 0 <= k <= |a| && k <= |b| && DiffersAt(a, b, k);
    assert (a + x)[..k] == a[..k] && (b + y)[..k] == b[..k];
    assert DiffersAt(a + x, b + y, k);
  }

  ////////// Fixed width

  function Pow10(w: nat): nat {
    if w == 0 then 1 else 10 * Pow10(w - 1)
  }

  /** The last `w` digits. */
  function Fixed(n: nat, w: nat): (text: string)
    ensures |text| == w
  {
    if w == 0 then "" else Fixed(n / 10, w - 1) + [Digit(n % 10)]
  }

  lemma {:induction false} FixedZero(w: nat)
    ensures Fixed(0, w) == Zeroes(w)
  {
    if w > 0 {
      FixedZero(w - 1);
      assert Zeroes(w) == Zeroes(w - 1) + ['0'];
    }
  }

  lemma {:induction false} PadIsFixed(n: nat, w: nat)
    requires n < Pow10(w) && w > 0
    ensures Pad(n, w) == Fixed(n, w)
  {
    if n < 10 {
      FixedZero(w - 1);
      assert n / 10 == 0 && n % 10 == n;
    } else {
      PadIsFixed(n / 10, w - 1);
      var few, many := Digits(n / 10), Digits(n);
      if |few| < w - 1 {
        assert Zeroes(w - |many|) + many == (Zeroes(w - 1 - |few|) + few) + [Digit(n % 10)];
      }
    }
  }

  lemma {:induction false} FixedKeepsOrder(a: nat, b: nat, w: nat)
    requires a < b < Pow10(w)
    ensures TextBefore(Fixed(a, w), Fixed(b, w))
  {
    var x, y := Fixed(a / 10, w - 1), Fixed(b / 10, w - 1);
    if a / 10 < b / 10 {
      FixedKeepsOrder(a / 10, b / 10, w - 1);
      DifferenceDecides(x, y, [Digit(a % 10)], [Digit(b % 10)]);
    } else {
      assert a / 10 == b / 10 && a % 10 < b % 10;
      LastDigitDecides(x, a % 10, b % 10);
    }
  }

  lemma LastDigitDecides(x: string, a: nat, b: nat)
    requires a < b < 10
    ensures TextBefore(x + [Digit(a)], x + [Digit(b)])
  {
    DigitIsItsValue(a);
    DigitIsItsValue(b);
    var s, t := x + [Digit(a)], x + [Digit(b)];
    assert s[..|x|] == x && t[..|x|] == x;
    assert DiffersAt(s, t, |x|);
  }

  ////////// Directories and files

  const HOUR := 3600
  const DAY := 86_400

  /** A clock before 1970 counts as 1970. */
  function Since1970(seconds: int): nat {
    if seconds < 0 then 0 else seconds
  }

  /** The UTC date and hour of an instant, in seconds. */
  function DateHour(seconds: int): (string, nat) {
    (DateText(CivilFromDays(Since1970(seconds) / DAY)), Since1970(seconds) % DAY / HOUR)
  }

  function MonthAndDay(d: Date): string {
    Pad(NonNegative(d.month), 2) + ("-" + Pad(NonNegative(d.day), 2))
  }

  function DateText(date: Date): string {
    Pad(NonNegative(date.year), 4) + ("-" + MonthAndDay(date))
  }

  /** No year from 1970 on, month or day is negative. */
  function NonNegative(n: int): nat {
    if n < 0 then 0 else n
  }

  function DirFor(prefix: string, partition: string, seconds: int): string {
    var (date, hour) := DateHour(seconds);
    (prefix + "/symbol=" + partition + "/date=") + (date + ("/hour=" + (Pad(hour, 2) + "/")))
  }

  function FileName(part: nat): string {
    "part-" + (Pad(part, 5) + ".parquet")
  }

  function KeyFor(dir: string, part: nat): string {
    dir + FileName(part)
  }

  ////////// Key order is time order

  /** Dates whose text is ten characters. */
  predicate Writable(date: Date) {
    Calendar.Valid(date) && 0 <= date.year <= 9999
  }

  lemma Widths()
    ensures Pow10(2) == 100 && Pow10(4) == 10_000 && Pow10(5) == 100_000
  {
    assert Pow10(1) == 10 && Pow10(3) == 1000;
  }

  lemma DateTextIsFixed(d: Date)
    requires Writable(d)
    ensures DateText(d) == Fixed(d.year, 4) + ("-" + (Fixed(d.month, 2) + ("-" + Fixed(d.day, 2))))
    ensures |DateText(d)| == 10
  {
    Widths();
    PadIsFixed(d.year, 4);
    PadIsFixed(d.month, 2);
    PadIsFixed(d.day, 2);
  }

  lemma DateTextKeepsOrder(a: Date, b: Date)
    requires Writable(a) && Writable(b) && Before(a, b)
    ensures TextBefore(DateText(a), DateText(b))
  {
    Widths();
    PadIsFixed(a.year, 4);
    PadIsFixed(b.year, 4);
    DatesFirst(a, b);
  }

  lemma LeapDayText()
    ensures CivilFromDays(11_016) == Date(2000, 2, 29) && DateText(Date(2000, 2, 29)) == "2000-02-29"
  {
    assert Pad(2000, 4) == "2000" && Pad(2, 2) == "02" && Pad(29, 2) == "29";
  }

  lemma ShortPads()
    ensures Pad(13, 2) == "13" && Pad(7, 5) == "00007"
  {
  }

  lemma LeapDayHour()
    ensures DateHour(11_016 * DAY + 13 * HOUR + 59) == ("2000-02-29", 13)
  {
    var seconds := 11_016 * DAY + 13 * HOUR + 59;
    LeapDayText();
    assert seconds / DAY == 11_016 && seconds % DAY / HOUR == 13;
  }

  /** For instance, early in the afternoon of a leap day. */
  lemma ForInstance(prefix: string, partition: string)
    ensures DirFor(prefix, partition, 11_016 * DAY + 13 * HOUR + 59) ==
            (prefix + "/symbol=" + partition + "/date=") + ("2000-02-29" + ("/hour=" + ("13" + "/")))
    ensures FileName(7) == "part-" + ("00007" + ".parquet")
  {
    LeapDayHour();
    ShortPads();
  }

  function HourOf(seconds: int): int {
    Since1970(seconds) / HOUR
  }

  lemma HourParts(seconds: nat)
    ensures seconds / DAY == HourOf(seconds) / 24 && seconds % DAY / HOUR == HourOf(seconds) % 24
  {
  }

  /** The instant falls in a year its directory can name in four digits. */
  predicate Nameable(seconds: int) {
    CivilFromDays(Since1970(seconds) / DAY).year <= 9999
  }

  lemma NameableIsWritable(seconds: int)
    requires Nameable(seconds)
    ensures Writable(CivilFromDays(Since1970(seconds) / DAY))
  {
    var day := Since1970(seconds) / DAY;
    DaysRoundTrip(day);
    DatesKeepOrder(0, day);
    DayZero();
  }

  lemma DirIs(prefix: string, partition: string, s: int)
    requires Nameable(s)
    ensures DirFor(prefix, partition, s) ==
            (prefix + "/symbol=" + partition + "/date=") + DateAndHour(HourOf(s) / 24, HourOf(s) % 24)
    ensures |DateAndHour(HourOf(s) / 24, HourOf(s) % 24)| == 19
  {
    HourParts(Since1970(s));
    NameableIsWritable(s);
    DateTextIsFixed(CivilFromDays(Since1970(s) / DAY));
    Widths();
    PadIsFixed(HourOf(s) % 24, 2);
  }

  lemma DirsKeepOrder(prefix: string, partition: string, s: int, t: int)
    requires Nameable(s) && Nameable(t)
    ensures |DirFor(prefix, partition, s)| == |DirFor(prefix, partition, t)|
    ensures HourOf(s) == HourOf(t) ==> DirFor(prefix, partition, s) == DirFor(prefix, partition, t)
    ensures HourOf(s) < HourOf(t) ==> TextBefore(DirFor(prefix, partition, s), DirFor(prefix, partition, t))
  {
    DirIs(prefix, partition, s);
    DirIs(prefix, partition, t);
    if HourOf(s) < HourOf(t) {
      HourParts(Since1970(s));
      HourParts(Since1970(t));
      NameableIsWritable(s);
      NameableIsWritable(t);
      RestKeepsOrder(HourOf(s) / 24, HourOf(t) / 24, HourOf(s) % 24, HourOf(t) % 24);
      CommonPrefixIsKept(prefix + "/symbol=" + partition + "/date=", DateAndHour(HourOf(s) / 24, HourOf(s) % 24),
                         DateAndHour(HourOf(t) / 24, HourOf(t) % 24));
    }
  }

  function DateAndHour(day: int, hour: nat): string {
    DateText(CivilFromDays(day)) + ("/hour=" + (Pad(hour, 2) + "/"))
  }

  lemma RestKeepsOrder(d: int, e: int, h: nat, i: nat)
    requires Writable(CivilFromDays(d)) && Writable(CivilFromDays(e)) && h < 24 && i < 24
    requires d < e || (d == e && h < i)
    ensures TextBefore(DateAndHour(d, h), DateAndHour(e, i))
  {
    var a, b := DateText(CivilFromDays(d)), DateText(CivilFromDays(e));
    if d < e {
      DatesKeepOrder(d, e);
      DateTextKeepsOrder(CivilFromDays(d), CivilFromDays(e));
      DateTextIsFixed(CivilFromDays(d));
      DateTextIsFixed(CivilFromDays(e));
      DifferenceDecides(a, b, "/hour=" + (Pad(h, 2) + "/"), "/hour=" + (Pad(i, 2) + "/"));
    } else {
      Widths();
      PadIsFixed(h, 2);
      PadIsFixed(i, 2);
      FixedKeepsOrder(h, i, 2);
      DifferenceDecides(Pad(h, 2), Pad(i, 2), "/", "/");
      CommonPrefixIsKept("/hour=", Pad(h, 2) + "/", Pad(i, 2) + "/");
      CommonPrefixIsKept(a, "/hour=" + (Pad(h, 2) + "/"), "/hour=" + (Pad(i, 2) + "/"));
    }
  }

  lemma FileNamesKeepOrder(p: nat, q: nat)
    requires p < q < 100_000
    ensures TextBefore(FileName(p), FileName(q))
  {
    Widths();
    PadIsFixed(p, 5);
    PadIsFixed(q, 5);
    FixedKeepsOrder(p, q, 5);
    DifferenceDecides(Pad(p, 5), Pad(q, 5), ".parquet", ".parquet");
    CommonPrefixIsKept("part-", Pad(p, 5) + ".parquet", Pad(q, 5) + ".parquet");
  }

  /** An earlier hour, or an earlier part of the same hour. */
  predicate Earlier(s: int, p: nat, t: int, q: nat) {
    HourOf(s) < HourOf(t) || (HourOf(s) == HourOf(t) && p < q)
  }

  lemma EarlierKeysComeFirst(prefix: string, partition: string, s: int, p: nat, t: int, q: nat)
    requires Nameable(s) && Nameable(t) && p < 100_000 && q < 100_000 && Earlier(s, p, t, q)
    ensures TextBefore(KeyFor(DirFor(prefix, partition, s), p), KeyFor(DirFor(prefix, partition, t), q))
  {
    DirsKeepOrder(prefix, partition, s, t);
    var a, b := DirFor(prefix, partition, s), DirFor(prefix, partition, t);
    if HourOf(s) < HourOf(t) {
      DifferenceDecides(a, b, FileName(p), FileName(q));
    } else {
      FileNamesKeepOrder(p, q);
      CommonPrefixIsKept(a, FileName(p), FileName(q));
    }
  }

  /**
   Within a partition a sorted listing is chronological: a key comes first exactly if its hour
   is earlier, or its part is, for years to 9999 and parts below 100000.
   */
  lemma KeysAreChronological(prefix: string, partition: string, s: int, p: nat, t: int, q: nat)
    requires Nameable(s) && Nameable(t) && p < 100_000 && q < 100_000
    ensures TextBefore(KeyFor(DirFor(prefix, partition, s), p), KeyFor(DirFor(prefix, partition, t), q))
            <==> Earlier(s, p, t, q)
  {
    var a, b := KeyFor(DirFor(prefix, partition, s), p), KeyFor(DirFor(prefix, partition, t), q);
    if Earlier(s, p, t, q) {
      EarlierKeysComeFirst(prefix, partition, s, p, t, q);
    } else if Earlier(t, q, s, p) {
      EarlierKeysComeFirst(prefix, partition, t, q, s, p);
      TextOrderIsStrict(b, a);
    } else {
      DirsKeepOrder(prefix, partition, s, t);
      assert !TextBefore(a, a) by {
        if TextBefore(a, a) {
          TextOrderIsStrict(a, a);
        }
      }
    }
  }

  ////////// Where the widths run out

  lemma {:induction false} DigitsAreFixed(n: nat)
    ensures n < Pow10(|Digits(n)|) && Digits(n) == Fixed(n, |Digits(n)|)
  {
    if n < 10 {
      assert Pow10(1) == 10 && Fixed(n / 10, 0) == "";
    } else {
      DigitsAreFixed(n / 10);
    }
  }

  /** How many digits a padded number takes. */
  function Width(n: nat, width: nat): nat {
    |Pad(n, width)|
  }

  lemma {:induction false} PowGrows(a: nat, b: nat)
    requires a <= b
    ensures Pow10(a) <= Pow10(b)
  {
    if a < b {
      PowGrows(a, b - 1);
    }
  }

  lemma PadIsFixedWidth(n: nat, width: nat)
    requires width > 0
    ensures n < Pow10(Width(n, width)) && Pad(n, width) == Fixed(n, Width(n, width)) && Width(n, width) >= width
  {
    DigitsAreFixed(n);
    if |Digits(n)| < width {
      PowGrows(|Digits(n)|, width);
      PadIsFixed(n, width);
    }
  }

  /** A number without its last `k` digits. */
  function Lead(n: nat, k: nat): nat {
    if k == 0 then n else Lead(n / 10, k - 1)
  }

  lemma {:induction false} LeadIsBelow(n: nat, w: nat, k: nat)
    requires n < Pow10(w + k)
    ensures Lead(n, k) < Pow10(w)
  {
    if k > 0 {
      LeadIsBelow(n / 10, w, k - 1);
    }
  }

  /** A number's digits are its leading ones and then more digits. */
  lemma {:induction false} FixedLeads(n: nat, w: nat, more: nat) returns (rest: string)
    ensures Fixed(n, w + more) == Fixed(Lead(n, more), w) + rest && |rest| == more
    ensures forall i | 0 <= i < more :: '0' <= rest[i]
  {
    if more == 0 {
      rest := "";
      assert Fixed(n, w) + rest == Fixed(n, w);
    } else {
      var front := FixedLeads(n / 10, w, more - 1);
      DigitIsItsValue(n % 10);
      rest := front + [Digit(n % 10)];
    }
  }

  /** Compared digit by digit from the left, numbers of these widths; a number that runs out first comes first. */
  predicate LeadsBefore(p: nat, w: nat, q: nat, v: nat) {
    if w == v then p < q
    else if w < v then p <= Lead(q, v - w)
    else Lead(p, w - v) < q
  }

  /** Two padded numbers, each ended by a character below the digits. */
  lemma PaddedFirst(p: nat, q: nat, width: nat, end: char, x: string, y: string)
    requires width > 0 && end < '0' && LeadsBefore(p, Width(p, width), q, Width(q, width))
    ensures TextBefore(Pad(p, width) + ([end] + x), Pad(q, width) + ([end] + y))
  {
    var w, v := Width(p, width), Width(q, width);
    PadIsFixedWidth(p, width);
    PadIsFixedWidth(q, width);
    if w == v {
      FixedKeepsOrder(p, q, w);
      DifferenceDecides(Fixed(p, w), Fixed(q, v), [end] + x, [end] + y);
    } else if w < v {
      ShorterFirst(p, w, q, v - w, end, x, [end] + y);
    } else {
      LongerFirst(p, v, w - v, q, [end] + x, [end] + y);
    }
  }

  lemma ShorterFirst(p: nat, w: nat, q: nat, more: nat, end: char, x: string, y: string)
    requires more > 0 && end < '0' && p <= Lead(q, more) && q < Pow10(w + more)
    ensures TextBefore(Fixed(p, w) + ([end] + x), Fixed(q, w + more) + y)
  {
    var rest := FixedLeads(q, w, more);
    var lead := Lead(q, more);
    LeadIsBelow(q, w, more);
    assert Fixed(q, w + more) + y == Fixed(lead, w) + (rest + y);
    if p < lead {
      FixedKeepsOrder(p, lead, w);
      DifferenceDecides(Fixed(p, w), Fixed(lead, w), [end] + x, rest + y);
    } else {
      assert DiffersAt([end] + x, rest + y, 0);
      CommonPrefixIsKept(Fixed(p, w), [end] + x, rest + y);
    }
  }

  lemma LongerFirst(p: nat, v: nat, more: nat, q: nat, x: string, y: string)
    requires more > 0 && Lead(p, more) < q < Pow10(v)
    ensures TextBefore(Fixed(p, v + more) + x, Fixed(q, v) + y)
  {
    var rest := FixedLeads(p, v, more);
    var lead := Lead(p, more);
    assert Fixed(p, v + more) + x == Fixed(lead, v) + (rest + x);
    FixedKeepsOrder(lead, q, v);
    DifferenceDecides(Fixed(lead, v), Fixed(q, v), rest + x, y);
  }

  /** A part further on comes first exactly if its number is wider and its leading digits are lower. */
  lemma WidePartsComeEarly(dir: string, p: nat, q: nat)
    requires p < q
    ensures TextBefore(KeyFor(dir, q), KeyFor(dir, p)) <==>
              Width(p, 5) < Width(q, 5) && LeadsBefore(q, Width(q, 5), p, Width(p, 5))
  {
    var w, v := Width(p, 5), Width(q, 5);
    WidthGrows(p, q, 5);
    assert ".parquet" == ['.'] + "parquet";
    if LeadsBefore(q, v, p, w) {
      PaddedFirst(q, p, 5, '.', "parquet", "parquet");
      CommonPrefixIsKept("part-", Pad(q, 5) + ".parquet", Pad(p, 5) + ".parquet");
      CommonPrefixIsKept(dir, FileName(q), FileName(p));
    } else {
      PaddedFirst(p, q, 5, '.', "parquet", "parquet");
      CommonPrefixIsKept("part-", Pad(p, 5) + ".parquet", Pad(q, 5) + ".parquet");
      CommonPrefixIsKept(dir, FileName(p), FileName(q));
      TextOrderIsStrict(KeyFor(dir, p), KeyFor(dir, q));
    }
  }

  lemma WidthGrows(p: nat, q: nat, width: nat)
    requires p <= q && width > 0
    ensures Width(p, width) <= Width(q, width)
  {
    DigitsGrow(p, q);
  }

  lemma {:induction false} DigitsGrow(p: nat, q: nat)
    requires p <= q
    ensures |Digits(p)| <= |Digits(q)|
  {
    if q >= 10 && p >= 10 {
      DigitsGrow(p / 10, q / 10);
    }
  }

  /** Some part after 99999 does come early. */
  lemma FirstWidePart(dir: string)
    ensures TextBefore(KeyFor(dir, 100_000), KeyFor(dir, 99_999))
  {
    assert |Digits(100_000)| == 6 && |Digits(99_999)| == 5 by {
      assert |Digits(10_000)| == 5 && |Digits(1000)| == 4 && |Digits(9999)| == 4 && |Digits(999)| == 3;
    }
    WidePartsComeEarly(dir, 99_999, 100_000);
  }

  lemma MonthAndDayKeepsOrder(a: Date, b: Date)
    requires Calendar.Valid(a) && Calendar.Valid(b) && (a.month < b.month || (a.month == b.month && a.day < b.day))
    ensures TextBefore(MonthAndDay(a), MonthAndDay(b))
  {
    Widths();
    PadIsFixed(a.month, 2);
    PadIsFixed(b.month, 2);
    PadIsFixed(a.day, 2);
    PadIsFixed(b.day, 2);
    if a.month < b.month {
      FixedKeepsOrder(a.month, b.month, 2);
      DifferenceDecides(Fixed(a.month, 2), Fixed(b.month, 2), "-" + Fixed(a.day, 2), "-" + Fixed(b.day, 2));
    } else {
      FixedKeepsOrder(a.day, b.day, 2);
      CommonPrefixIsKept("-", Fixed(a.day, 2), Fixed(b.day, 2));
      CommonPrefixIsKept(Fixed(a.month, 2), "-" + Fixed(a.day, 2), "-" + Fixed(b.day, 2));
    }
  }

  lemma DatesFirst(a: Date, b: Date)
    requires Calendar.Valid(a) && Calendar.Valid(b) && 0 <= a.year && 0 <= b.year
    requires if a.year == b.year then Before(a, b) else LeadsBefore(a.year, Width(a.year, 4), b.year, Width(b.year, 4))
    ensures TextBefore(DateText(a), DateText(b))
  {
    if a.year == b.year {
      MonthAndDayKeepsOrder(a, b);
      CommonPrefixIsKept("-", MonthAndDay(a), MonthAndDay(b));
      CommonPrefixIsKept(Pad(a.year, 4), "-" + MonthAndDay(a), "-" + MonthAndDay(b));
    } else {
      PaddedFirst(a.year, b.year, 4, '-', MonthAndDay(a), MonthAndDay(b));
    }
  }

  /** A later date comes first exactly if its year is wider and its leading digits are lower: from year 10000 on. */
  lemma WideYearsComeEarly(a: Date, b: Date)
    requires Calendar.Valid(a) && Calendar.Valid(b) && 0 <= a.year && Before(a, b)
    ensures TextBefore(DateText(b), DateText(a)) <==>
              Width(a.year, 4) < Width(b.year, 4) && LeadsBefore(b.year, Width(b.year, 4), a.year, Width(a.year, 4))
  {
    WidthGrows(a.year, b.year, 4);
    if a.year < b.year && LeadsBefore(b.year, Width(b.year, 4), a.year, Width(a.year, 4)) {
      DatesFirst(b, a);
    } else {
      DatesFirst(a, b);
      TextOrderIsStrict(DateText(a), DateText(b));
    }
  }

  /** Year 10000 does. */
  lemma FiveDigitYearsComeEarly()
    ensures TextBefore(DateText(Date(10_000, 1, 1)), DateText(Date(9999, 12, 31)))
  {
    assert |Digits(10_000)| == 5 && |Digits(9999)| == 4 by {
      assert |Digits(1000)| == 4 && |Digits(999)| == 3;
    }
    WideYearsComeEarly(Date(9999, 12, 31), Date(10_000, 1, 1));
  }

  ////////// The next part of a directory

  /** What follows the last slash. */
  function LastComponent(key: string): string {
    if key == [] || key[|key| - 1] == '/' then []
    else LastComponent(key[..|key| - 1]) + [key[|key| - 1]]
  }

  /** The part number a key carries, if it is shaped like one of ours. */
  function PartOf(key: string): Option<nat> {
    var name := LastComponent(key);
    if |name| < |"part-"| || name[..|"part-"|] != "part-" then None
    else
      var rest := name[|"part-"|..];
      if |rest| < |".parquet"| || rest[|rest| - |".parquet"|..] != ".parquet" then None
      else Unsigned(rest[..|rest| - |".parquet"|])
  }

  /** An unsigned number may carry a plus sign. */
  function Unsigned(text: string): Option<nat> {
    if text != [] && text[0] == '+' then Parsed(text[1..]) else Parsed(text)
  }

  /** One more than the highest part in a listing, whatever else it holds. */
  function NextPart(existing: seq<string>): nat {
    if existing == [] then 0
    else
      var before := NextPart(existing[..|existing| - 1]);
      var part := PartOf(existing[|existing| - 1]);
      if part.Some? && part.value + 1 > before then part.value + 1 else before
  }

  lemma {:induction false} LastComponentOfFile(dir: string, name: string)
    requires (dir == [] || dir[|dir| - 1] == '/') && forall i | 0 <= i < |name| :: name[i] != '/'
    ensures LastComponent(dir + name) == name
  {
    if name == [] {
      assert dir + name == dir;
    } else {
      LastComponentOfFile(dir, name[..|name| - 1]);
      assert (dir + name)[..|dir + name| - 1] == dir + name[..|name| - 1];
    }
  }

  lemma {:induction false} ParsedIsDigits(text: string)
    requires Parsed(text).Some?
    ensures forall i | 0 <= i < |text| :: DigitValue(text[i]).Some?
  {
    if |text| > 1 {
      ParsedIsDigits(text[..|text| - 1]);
    }
  }

  /** Every key this writer makes carries its own part number. */
  lemma KeysCarryTheirPart(dir: string, part: nat)
    requires dir != [] && dir[|dir| - 1] == '/'
    ensures PartOf(KeyFor(dir, part)) == Some(part)
  {
    PadParses(part, 5);
    var digits := Pad(part, 5);
    ParsedIsDigits(digits);
    var name := FileName(part);
    assert forall i | 0 <= i < |name| :: name[i] != '/';
    LastComponentOfFile(dir, name);
    assert name[..5] == "part-" && name[5..] == digits + ".parquet";
    var rest := name[5..];
    assert rest[|digits|..] == ".parquet" && rest[..|digits|] == digits;
  }

  /** The next part exceeds every part listed, so its key is none of them, and so are all later ones. */
  lemma {:induction false} NextPartIsNew(existing: seq<string>, dir: string, part: nat)
    requires dir != [] && dir[|dir| - 1] == '/' && part >= NextPart(existing)
    ensures KeyFor(dir, part) !in existing
  {
    KeysCarryTheirPart(dir, part);
    if existing != [] {
      NextPartIsNew(existing[..|existing| - 1], dir, part);
      assert existing == existing[..|existing| - 1] + [existing[|existing| - 1]];
    }
  }

  /** And it is the least such number: it is zero, or the part before it is listed. */
  lemma {:induction false} NextPartIsLeast(existing: seq<string>)
    ensures NextPart(existing) == 0 || exists i | 0 <= i < |existing| :: PartOf(existing[i]) == Some(NextPart(existing) - 1)
  {
    if existing != [] {
      var front := existing[..|existing| - 1];
      NextPartIsLeast(front);
      if NextPart(existing) == NextPart(front) && NextPart(front) != 0 {
        var i :| 0 <= i < |front| && PartOf(front[i]) == Some(NextPart(front) - 1);
        assert PartOf(existing[i]) == Some(NextPart(existing) - 1);
      } else if NextPart(existing) != 0 {
        assert PartOf(existing[|existing| - 1]) == Some(NextPart(existing) - 1);
      }
    }
  }

  lemma NextPartExceedsTheLast(existing: seq<string>)
    requires existing != [] && PartOf(existing[|existing| - 1]).Some?
    ensures PartOf(existing[|existing| - 1]).value < NextPart(existing)
  {
  }

  lemma NextPartGrows(existing: seq<string>)
    requires existing != []
    ensures NextPart(existing[..|existing| - 1]) <= NextPart(existing)
  {
  }

  lemma {:induction false} NextPartExceeds(existing: seq<string>, i: nat, part: nat)
    requires i < |existing| && PartOf(existing[i]) == Some(part)
    ensures part < NextPart(existing)
  {
    if i < |existing| - 1 {
      NextPartExceeds(existing[..|existing| - 1], i, part);
      NextPartGrows(existing);
    } else {
      NextPartExceedsTheLast(existing);
    }
  }

  lemma NextPartIsMonotone(existing: seq<string>, more: seq<string>)
    requires forall k | k in existing :: k in more
    ensures NextPart(existing) <= NextPart(more)
  {
    NextPartIsLeast(existing);
    if NextPart(existing) > 0 {
      var i :| 0 <= i < |existing| && PartOf(existing[i]) == Some(NextPart(existing) - 1);
      assert existing[i] in more;
      var j :| 0 <= j < |more| && more[j] == existing[i];
      NextPartExceeds(more, j, NextPart(existing) - 1);
    }
  }

  /** The order of a listing does not matter. */
  lemma NextPartIgnoresOrder(existing: seq<string>, others: seq<string>)
    requires forall k :: k in existing <==> k in others
    ensures NextPart(existing) == NextPart(others)
  {
    NextPartIsMonotone(existing, others);
    NextPartIsMonotone(others, existing);
  }

  lemma DirEnds(prefix: string, partition: string, seconds: int)
    ensures var dir := DirFor(prefix, partition, seconds); dir != [] && dir[|dir| - 1] == '/'
  {
  }

  ////////// In 64 bits

  const MAX_PART := 0xFFFF_FFFF_FFFF_FFFF

  /** A wider number does not parse, and the one after the last is the last. */
  function NextPart64(existing: seq<string>): nat {
    if existing == [] then 0
    else
      var before := NextPart64(existing[..|existing| - 1]);
      var part := PartOf(existing[|existing| - 1]);
      if part.Some? && before <= part.value <= MAX_PART then Min(part.value + 1, MAX_PART) else before
  }

  lemma {:induction false} NextPart64Exceeds(existing: seq<string>, key: string)
    requires key in existing && PartOf(key).Some? && PartOf(key).value <= MAX_PART
    ensures PartOf(key).value < NextPart64(existing) || PartOf(key).value == NextPart64(existing) == MAX_PART
  {
    var front := existing[..|existing| - 1];
    assert existing == front + [existing[|existing| - 1]];
    if key in front {
      NextPart64Exceeds(front, key);
    }
  }

  lemma {:induction false} NextPart64IsPossible(existing: seq<string>)
    ensures NextPart64(existing) <= MAX_PART
  {
    if existing != [] {
      NextPart64IsPossible(existing[..|existing| - 1]);
    }
  }

  /** With the code's 64 bits the next part's key is a new one exactly if the last possible part is not listed. */
  lemma NextPart64IsNewExactlyWhen(existing: seq<string>, dir: string)
    requires dir != [] && dir[|dir| - 1] == '/'
    ensures KeyFor(dir, NextPart64(existing)) !in existing <==> KeyFor(dir, MAX_PART) !in existing
  {
    var next := NextPart64(existing);
    NextPart64IsPossible(existing);
    KeysCarryTheirPart(dir, next);
    KeysCarryTheirPart(dir, MAX_PART);
    if KeyFor(dir, next) in existing {
      NextPart64Exceeds(existing, KeyFor(dir, next));
    }
    if KeyFor(dir, MAX_PART) in existing {
      NextPart64Exceeds(existing, KeyFor(dir, MAX_PART));
    }
  }
}
