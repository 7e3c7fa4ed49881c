/**
 The time stamps of the games table (gameStamp in pkgs/arcade-webapp
 internal/store/store.go): strings whose byte order is meant to be time order.

 A time is its UTC calendar fields, which order as instants do.
 */
module Stamps {
  import opened Text

  /** A UTC time, years 0 to 9999, down to the nanosecond. */
  datatype Time = Time(year: nat, month: nat, day: nat, hour: nat, minute: nat, second: nat, nano: nat)

  predicate Valid(t: Time) {
    t.year < 10000 && 1 <= t.month <= 12 && 1 <= t.day <= 31 && t.hour < 24 && t.minute < 60 && t.second < 60 &&
    t.nano < 1000000000
  }

  /** Calendar order of the seconds, then of the fractions. */
  predicate EarlierSecond(a: Time, b: Time) {
    a.year < b.year || (a.year == b.year &&
      (a.month < b.month || (a.month == b.month &&
        (a.day < b.day || (a.day == b.day &&
          (a.hour < b.hour || (a.hour == b.hour &&
            (a.minute < b.minute || (a.minute == b.minute && a.second < b.second)))))))))
  }

  predicate SameSecond(a: Time, b: Time) { a.(nano := 0) == b.(nano := 0) }

  predicate Earlier(a: Time, b: Time) {
    EarlierSecond(a, b) || (SameSecond(a, b) && a.nano < b.nano)
  }

  // ---------------------------------------------------------------- formatting

  function Digit(n: nat): char
    requires n < 10
  {
    '0' + n as char
  }

  /** n in w decimal digits, zero-padded. */
  function Decimal(n: nat, w: nat): (s: string)
    ensures |s| == w
  {
    if w == 0 then "" else Decimal(n / 10, w - 1) + [Digit(n % 10)]
  }

  /** YYYY-MM-DDTHH:MM:SS */
  function Second(t: Time): (s: string)
    ensures |s| == 19
  {
    Decimal(t.year, 4) + ("-" + (Decimal(t.month, 2) + ("-" + (Decimal(t.day, 2) + ("T" +
    (Decimal(t.hour, 2) + (":" + (Decimal(t.minute, 2) + (":" + Decimal(t.second, 2))))))))))
  }

  /** gameStamp: a fraction of exactly nine digits. */
  function Stamp(t: Time): string { Second(t) + ("." + (Decimal(t.nano, 9) + "Z")) }

  /** The stamps of older binaries, truncated to the second. */
  function LegacyStamp(t: Time): string { Second(t) + "Z" }

  // ---------------------------------------------------------------- order

  /** Strings with heads of equal length compare by head, then by tail. */
  lemma {:induction false} BeforeByHead(x: string, y: string, x': string, y': string)
    requires |x| == |x'|
    ensures Before(x + y, x' + y') <==> Before(x, x') || (x == x' && Before(y, y'))
    decreases |x|
  {
    if x == "" {
      assert x + y == y && x' + y' == y';
    } else {
      assert (x + y)[1..] == x[1..] + y && (x' + y')[1..] == x'[1..] + y';
      BeforeByHead(x[1..], y, x'[1..], y');
      assert x == [x[0]] + x[1..] && x' == [x'[0]] + x'[1..];
    }
  }

  function Power10(w: nat): nat { if w == 0 then 1 else 10 * Power10(w - 1) }

  lemma {:induction false} DecimalOrder(m: nat, n: nat, w: nat)
    requires m < Power10(w) && n < Power10(w)
    ensures Before(Decimal(m, w), Decimal(n, w)) <==> m < n
    ensures Decimal(m, w) == Decimal(n, w) <==> m == n
  {
    if w > 0 {
      DecimalOrder(m / 10, n / 10, w - 1);
      var x, y := Decimal(m / 10, w - 1), Decimal(n / 10, w - 1);
      var c, d := Digit(m % 10), Digit(n % 10);
      BeforeByHead(x, [c], y, [d]);
      assert Before([c], [d]) <==> c < d;
      assert (x + [c])[..w - 1] == x && (y + [d])[..w - 1] == y;
      assert (x + [c])[w - 1] == c && (y + [d])[w - 1] == d;
    }
  }

  /** One fixed-width field followed by more text. */
  lemma FieldOrder(m: nat, n: nat, w: nat, y: string, y': string)
    requires m < Power10(w) && n < Power10(w)
    ensures Before(Decimal(m, w) + y, Decimal(n, w) + y') <==> m < n || (m == n && Before(y, y'))
    ensures Decimal(m, w) + y == Decimal(n, w) + y' <==> m == n && y == y'
  {
    DecimalOrder(m, n, w);
    BeforeByHead(Decimal(m, w), y, Decimal(n, w), y');
    assert (Decimal(m, w) + y)[..w] == Decimal(m, w) && (Decimal(n, w) + y')[..w] == Decimal(n, w);
    assert (Decimal(m, w) + y)[w..] == y && (Decimal(n, w) + y')[w..] == y';
  }

  /** The same separator in front of both. */
  lemma AfterSeparator(sep: string, y: string, y': string)
    ensures Before(sep + y, sep + y') <==> Before(y, y')
    ensures sep + y == sep + y' <==> y == y'
  {
    BeforeByHead(sep, y, sep, y');
    BeforeTotal(sep, sep);
    assert (sep + y)[|sep|..] == y && (sep + y')[|sep|..] == y';
  }

  /** A two-digit field after a separator. */
  lemma TwoDigits(sep: string, m: nat, n: nat, y: string, y': string)
    requires m < 100 && n < 100
    ensures Before(sep + (Decimal(m, 2) + y), sep + (Decimal(n, 2) + y')) <==> m < n || (m == n && Before(y, y'))
    ensures sep + (Decimal(m, 2) + y) == sep + (Decimal(n, 2) + y') <==> m == n && y == y'
  {
    assert Power10(2) == 100;
    FieldOrder(m, n, 2, y, y');
    AfterSeparator(sep, Decimal(m, 2) + y, Decimal(n, 2) + y');
  }

  /** The clock part, from the hour on. */
  function Clock(t: Time): string {
    Decimal(t.hour, 2) + (":" + (Decimal(t.minute, 2) + (":" + Decimal(t.second, 2))))
  }

  lemma ClockOrder(a: Time, b: Time)
    requires Valid(a) && Valid(b)
    ensures Before(Clock(a), Clock(b)) <==>
      a.hour < b.hour || (a.hour == b.hour && (a.minute < b.minute || (a.minute == b.minute && a.second < b.second)))
    ensures Clock(a) == Clock(b) <==> a.hour == b.hour && a.minute == b.minute && a.second == b.second
  {
    hide Before, Decimal;
    var sa, sb := ":" + Decimal(a.second, 2), ":" + Decimal(b.second, 2);
    assert Power10(2) == 100;
    DecimalOrder(a.second, b.second, 2);
    AfterSeparator(":", Decimal(a.second, 2), Decimal(b.second, 2));
    TwoDigits(":", a.minute, b.minute, sa, sb);
    FieldOrder(a.hour, b.hour, 2, ":" + (Decimal(a.minute, 2) + sa), ":" + (Decimal(b.minute, 2) + sb));
  }

  lemma SecondOrder(a: Time, b: Time)
    requires Valid(a) && Valid(b)
    ensures Before(Second(a), Second(b)) <==> EarlierSecond(a, b)
    ensures Second(a) == Second(b) <==> SameSecond(a, b)
  {
    hide Before, Decimal, Clock;
    ClockOrder(a, b);
    SecondIsDateAndClock(a);
    SecondIsDateAndClock(b);
    AfterSeparator("T", Clock(a), Clock(b));
    var da, db := "T" + Clock(a), "T" + Clock(b);
    TwoDigits("-", a.day, b.day, da, db);
    var ma, mb := "-" + (Decimal(a.day, 2) + da), "-" + (Decimal(b.day, 2) + db);
    TwoDigits("-", a.month, b.month, ma, mb);
    assert Power10(4) == 10000;
    FieldOrder(a.year, b.year, 4, "-" + (Decimal(a.month, 2) + ma), "-" + (Decimal(b.month, 2) + mb));
  }

  lemma SecondIsDateAndClock(t: Time)
    ensures Second(t) ==
      Decimal(t.year, 4) + ("-" + (Decimal(t.month, 2) + ("-" + (Decimal(t.day, 2) + ("T" + Clock(t))))))
  {
  }

  /** Strings order new-format stamps exactly as time does. */
  lemma StampsOrderTime(a: Time, b: Time)
    requires Valid(a) && Valid(b)
    ensures Before(Stamp(a), Stamp(b)) <==> Earlier(a, b)
    ensures Stamp(a) == Stamp(b) <==> a == b
  {
    hide Before, Decimal, Second, EarlierSecond;
    SecondOrder(a, b);
    assert Power10(9) == 1000000000 by {
      assert Power10(5) == 100000;
    }
    FieldOrder(a.nano, b.nano, 9, "Z", "Z");
    AfterSeparator(".", Decimal(a.nano, 9) + "Z", Decimal(b.nano, 9) + "Z");
    BeforeTotal("Z", "Z");
    var ta, tb := "." + (Decimal(a.nano, 9) + "Z"), "." + (Decimal(b.nano, 9) + "Z");
    BeforeByHead(Second(a), ta, Second(b), tb);
    assert Stamp(a)[..19] == Second(a) && Stamp(b)[..19] == Second(b);
    assert Stamp(a)[19..] == ta && Stamp(b)[19..] == tb;
  }

  /** A legacy stamp sorts below a new one exactly when its second is strictly earlier. */
  lemma LegacyOrdersExactly(a: Time, b: Time)
    requires Valid(a) && Valid(b)
    ensures Before(LegacyStamp(a), Stamp(b)) <==> EarlierSecond(a, b)
    ensures Before(Stamp(b), LegacyStamp(a)) <==> EarlierSecond(b, a) || SameSecond(a, b)
  {
    hide Decimal, Second, EarlierSecond;
    SecondOrder(a, b);
    SecondOrder(b, a);
    var tail := "." + (Decimal(b.nano, 9) + "Z");
    BeforeByHead(Second(a), "Z", Second(b), tail);
    BeforeByHead(Second(b), tail, Second(a), "Z");
    assert tail[0] == '.' && 'Z' > '.';
  }

  // ---------------------------------------------------------------- the format

  /** The number a string of digits spells. */
  function Value(s: string): int {
    if s == "" then 0 else 10 * Value(s[..|s| - 1]) + (s[|s| - 1] as int - '0' as int)
  }

  predicate Digits(s: string) { forall c :: c in s ==> '0' <= c <= '9' }

  lemma {:induction false} DecimalReads(n: nat, w: nat)
    requires n < Power10(w)
    ensures Digits(Decimal(n, w)) && Value(Decimal(n, w)) == n
  {
    if w > 0 {
      DecimalReads(n / 10, w - 1);
      assert Decimal(n, w)[..w - 1] == Decimal(n / 10, w - 1);
    }
  }

  /** A stamp of 30 characters that reads YYYY-MM-DDTHH:MM:SS.fffffffffZ. */
  ghost predicate Reads(s: string, t: Time) {
    |s| == 30 && s[4] == s[7] == '-' && s[10] == 'T' && s[13] == s[16] == ':' && s[19] == '.' && s[29] == 'Z' &&
    Field(s[0..4], t.year) && Field(s[5..7], t.month) && Field(s[8..10], t.day) &&
    Field(s[11..13], t.hour) && Field(s[14..16], t.minute) && Field(s[17..19], t.second) && Field(s[20..29], t.nano)
  }

  ghost predicate Field(s: string, n: nat) { Digits(s) && Value(s) == n }

  lemma Powers()
    ensures Power10(2) == 100 && Power10(4) == 10000 && Power10(9) == 1000000000
  {
    assert Power10(4) == 100 * Power10(2);
    assert Power10(9) == 100000 * Power10(4);
  }

  /** Every field of the time can be read off its stamp. */
  lemma StampReads(t: Time)
    requires Valid(t)
    ensures Reads(Stamp(t), t)
    ensures LegacyStamp(t) == Stamp(t)[..19] + "Z"
  {
    hide Decimal, Digits, Value;
    Powers();
    hide Power10;
    DecimalReads(t.year, 4);
    DecimalReads(t.month, 2);
    DecimalReads(t.day, 2);
    DecimalReads(t.hour, 2);
    DecimalReads(t.minute, 2);
    DecimalReads(t.second, 2);
    DecimalReads(t.nano, 9);
    var s := Stamp(t);
    assert s[0..4] == Decimal(t.year, 4) && s[5..7] == Decimal(t.month, 2) && s[8..10] == Decimal(t.day, 2);
    assert s[11..13] == Decimal(t.hour, 2) && s[14..16] == Decimal(t.minute, 2) && s[17..19] == Decimal(t.second, 2);
    assert s[20..29] == Decimal(t.nano, 9);
  }
}
