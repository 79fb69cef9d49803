/** Durations for people: days, hours, minutes and seconds (cmd/coordinator/queues.go). */
module HumanDuration {
  import opened Basics

  const INT64_MIN := -0x8000_0000_0000_0000
  const INT64_MAX := 0x7FFF_FFFF_FFFF_FFFF
  const UINT64_SIZE := 0x1_0000_0000_0000_0000

  // ---- What is written ----

  /** A number and its unit, if it is wanted. */
  function Field(wanted: bool, v: nat, unit: char): string {
    if wanted then Digits(v) + [unit] else ""
  }

  function DayFields(days: nat): string {
    Field(days > 0, days, 'd')
  }

  function HourFields(hours: nat): string {
    DayFields(hours / 24) + Field(hours > 0, hours % 24, 'h')
  }

  function MinuteFields(minutes: nat): string {
    HourFields(minutes / 60) + Field(minutes > 0, minutes % 60, 'm')
  }

  /** The fields of so many seconds, without leading ones that are zero. */
  function Fields(seconds: nat): string {
    MinuteFields(seconds / 60) + Field(true, seconds % 60, 's')
  }

  function Seconds(d: int): nat {
    (if d < 0 then -d else d) / 1_000_000_000
  }

  function Render(d: int): string {
    (if d < 0 then "-" else "") + Fields(Seconds(d))
  }

  // ---- Reading it back ----

  /** What has been read from the left: the complete fields, in seconds, and the number after them. */
  datatype Reading = Reading(total: nat, number: nat, started: bool) | Garbled

  function Next(r: Reading, c: char): Reading {
    if r.Garbled? then Garbled
    else if '0' <= c <= '9' then Reading(r.total, 10 * r.number + (c - '0') as int, true)
    else if !r.started then Garbled
    else if c == 'd' then Reading(r.total + 86400 * r.number, 0, false)
    else if c == 'h' then Reading(r.total + 3600 * r.number, 0, false)
    else if c == 'm' then Reading(r.total + 60 * r.number, 0, false)
    else if c == 's' then Reading(r.total + r.number, 0, false)
    else Garbled
  }

  function Read(s: string): Reading {
    if s == [] then Reading(0, 0, false) else Next(Read(s[..|s| - 1]), s[|s| - 1])
  }

  lemma ReadNext(s: string, c: char)
    ensures Read(s + [c]) == Next(Read(s), c)
  {
    assert (s + [c])[..|s|] == s;
  }

  lemma {:induction false} ReadDigits(s: string, v: nat)
    requires Read(s).Reading? && !Read(s).started && Read(s).number == 0
    ensures Read(s + Digits(v)) == Reading(Read(s).total, v, true)
  {
    if v < 10 {
      ReadNext(s, Digit(v));
    } else {
      ReadDigits(s, v / 10);
      ReadNext(s + Digits(v / 10), Digit(v % 10));
      assert s + Digits(v) == s + Digits(v / 10) + [Digit(v % 10)];
    }
  }

  /** One field more. */
  lemma ReadField(s: string, total: nat, wanted: bool, v: nat, unit: char)
    requires Read(s) == Reading(total, 0, false)
    ensures Read(s + Field(wanted, v, unit)) == if wanted then Next(Reading(total, v, true), unit) else Read(s)
  {
    if wanted {
      ReadDigits(s, v);
      ReadNext(s + Digits(v), unit);
      assert s + (Digits(v) + [unit]) == s + Digits(v) + [unit];
    } else {
      assert s + "" == s;
    }
  }

  lemma ReadHours(hours: nat)
    ensures Read(HourFields(hours)) == Reading(3600 * hours, 0, false)
  {
    assert Read("") == Reading(0, 0, false) && "" + DayFields(hours / 24) == DayFields(hours / 24);
    ReadField("", 0, hours / 24 > 0, hours / 24, 'd');
    ReadField(DayFields(hours / 24), 86400 * (hours / 24), hours > 0, hours % 24, 'h');
  }

  /** The fields add up to the whole number of seconds. */
  lemma ReadFields(seconds: nat)
    ensures Read(Fields(seconds)) == Reading(seconds, 0, false)
  {
    var minutes := seconds / 60;
    var hours := minutes / 60;
    ReadHours(hours);
    ReadField(HourFields(hours), 3600 * hours, minutes > 0, minutes % 60, 'm');
    assert Read(MinuteFields(minutes)) == Reading(60 * minutes, 0, false);
    ReadField(MinuteFields(minutes), 60 * minutes, true, seconds % 60, 's');
  }

  /** The text of a duration: a sign and a number of seconds. */
  function Parse(s: string): (bool, Reading) {
    if s != [] && s[0] == '-' then (true, Read(s[1..])) else (false, Read(s))
  }

  lemma {:induction false} DigitsBegin(v: nat)
    ensures '0' <= Digits(v)[0] <= '9'
  {
    if v >= 10 {
      DigitsBegin(v / 10);
    }
  }

  lemma FieldsBegin(seconds: nat)
    ensures Fields(seconds) != [] && Fields(seconds)[0] != '-'
  {
    DigitsBegin(seconds / 60 / 60 / 24);
    DigitsBegin(seconds / 60 / 60 % 24);
    DigitsBegin(seconds / 60 % 60);
    DigitsBegin(seconds % 60);
  }

  /** Reading the text back gives the sign and the whole seconds; fractions are dropped towards zero. */
  lemma RenderReadsBack(d: int)
    ensures Parse(Render(d)) == (d < 0, Reading(Seconds(d), 0, false))
  {
    ReadFields(Seconds(d));
    FieldsBegin(Seconds(d));
    if d < 0 {
      assert Render(d)[1..] == Fields(Seconds(d));
    } else {
      assert Render(d) == Fields(Seconds(d));
    }
  }

  lemma HourText(days: nat, hours: nat, h: nat)
    requires hours < 24 && h == 24 * days + hours
    ensures HourFields(h) == Field(days > 0, days, 'd') + Field(h > 0, hours, 'h')
  {
    assert h / 24 == days && h % 24 == hours;
  }

  lemma MinuteText(h: nat, minutes: nat, m: nat)
    requires minutes < 60 && m == 60 * h + minutes
    ensures MinuteFields(m) == HourFields(h) + Field(m > 0, minutes, 'm')
  {
    assert m / 60 == h && m % 60 == minutes;
  }

  lemma SecondText(m: nat, seconds: nat, t: nat)
    requires seconds < 60 && t == 60 * m + seconds
    ensures Fields(t) == MinuteFields(m) + Field(true, seconds, 's')
  {
    assert t / 60 == m && t % 60 == seconds;
  }

  /** The text of t seconds, which are so many days, hours, minutes and seconds: leading fields that are zero are left out. */
  lemma RenderFields(days: nat, hours: nat, minutes: nat, seconds: nat, h: nat, m: nat, t: nat)
    requires hours < 24 && minutes < 60 && seconds < 60
    requires h == 24 * days + hours && m == 60 * h + minutes && t == 60 * m + seconds
    ensures Fields(t) == Field(days > 0, days, 'd') + Field(h > 0, hours, 'h') + Field(m > 0, minutes, 'm') + Field(true, seconds, 's')
  {
    HourText(days, hours, h);
    MinuteText(h, minutes, m);
    SecondText(m, seconds, t);
  }

  // ---- The code ----

  function Pow10(n: nat): (p: nat)
    ensures p > 0
  {
    if n == 0 then 1 else 10 * Pow10(n - 1)
  }

  lemma {:induction false} DigitsShort(v: nat, k: nat)
    requires k >= 1 && v < Pow10(k)
    ensures |Digits(v)| <= k
  {
    if v >= 10 {
      DigitsShort(v / 10, k - 1);
    }
  }

  lemma DivUnique(v: nat, p: nat, q: nat, r: nat)
    requires p > 0 && r < p && v == p * q + r
    ensures v / p == q
  {
    var d := v / p;
    assert p * d <= v < p * (d + 1);
    assert d < q ==> p * (d + 1) <= p * q;
    assert d > q ==> p * d >= p * (q + 1);
  }

  lemma Distribute(p: nat, q: nat, k: nat)
    ensures p * (10 * q + k) == 10 * p * q + p * k
  {
  }

  lemma Below(p: nat, k: nat, r: nat)
    requires k <= 9 && r < p
    ensures p * k + r < 10 * p
  {
    assert p * k <= p * 9;
  }

  lemma DivTwice(v: nat, p: nat)
    requires p > 0
    ensures v / p / 10 == v / (10 * p)
  {
    var d, r := v / p, v % p;
    var q, k := d / 10, d % 10;
    assert v == p * d + r && d == 10 * q + k;
    Distribute(p, q, k);
    Below(p, k, r);
    DivUnique(v, 10 * p, q, p * k + r);
  }

  /** fmtFrac on buf[:end]. What it writes is only scratch; what counts is that it stays below end. */
  method FmtFrac(buf: array<char>, end: nat, v: nat, prec: nat) returns (nw: nat, nv: nat)
    requires prec < end <= buf.Length
    modifies buf
    ensures nw <= end && nv == v / Pow10(prec)
    ensures buf[end..] == old(buf[end..])
  {
    var w, shown := end, false;
    nv := v;
    for i := 0 to prec
      invariant end - i <= w <= end
      invariant nv == v / Pow10(i)
      invariant buf[end..] == old(buf[end..])
    {
      var digit := nv % 10;
      shown := shown || digit != 0;
      if shown {
        w := w - 1;
        buf[w] := Digit(digit);
      }
      DivTwice(v, Pow10(i));
      nv := nv / 10;
    }
    if shown {
      w := w - 1;
      buf[w] := '.';
    }
    nw := w;
  }

  /** fmtInt on buf[:end]. */
  method FmtInt(buf: array<char>, end: nat, v: nat) returns (w: nat)
    requires |Digits(v)| <= end <= buf.Length
    modifies buf
    ensures w == end - |Digits(v)|
    ensures buf[w..] == Digits(v) + old(buf[end..])
  {
    w := end;
    if v == 0 {
      w := w - 1;
      buf[w] := '0';
      assert buf[w..] == Digits(0) + old(buf[end..]);
    } else {
      var u: nat := v;
      while u > 0
        invariant w <= end
        invariant u > 0 ==> |Digits(u)| <= w && Digits(u) + buf[w..] == Digits(v) + old(buf[end..])
        invariant u == 0 ==> buf[w..] == Digits(v) + old(buf[end..])
      {
        ghost var before := buf[w..];
        w := w - 1;
        buf[w] := Digit(u % 10);
        assert buf[w..] == [Digit(u % 10)] + before;
        if u < 10 {
          assert Digits(u) + before == buf[w..];
        } else {
          assert Digits(u) + before == Digits(u / 10) + buf[w..];
        }
        u := u / 10;
      }
    }
  }

  /** Puts a letter before what has been written. */
  method Put(buf: array<char>, end: nat, c: char) returns (w: nat)
    requires 0 < end <= buf.Length
    modifies buf
    ensures w == end - 1 && buf[w..] == [c] + old(buf[end..])
  {
    w := end - 1;
    buf[w] := c;
  }

  /** A number and its unit before what has been written. */
  method PutField(buf: array<char>, end: nat, v: nat, unit: char, ghost digits: nat) returns (w: nat)
    requires digits >= 1 && v < Pow10(digits) && digits < end <= buf.Length
    modifies buf
    ensures end - 1 - digits <= w && w < end
    ensures buf[w..] == Digits(v) + [unit] + old(buf[end..])
  {
    DigitsShort(v, digits);
    w := Put(buf, end, unit);
    w := FmtInt(buf, w, v);
    assert buf[w..] == Digits(v) + ([unit] + old(buf[end..]));
  }

  /** The conversion of an int64 to a uint64. */
  function Uint64(d: int): (u: nat)
    requires INT64_MIN <= d <= INT64_MAX
    ensures u < UINT64_SIZE
  {
    if d < 0 then d + UINT64_SIZE else d
  }

  /** Negating a uint64, which wraps around. */
  function Negated(u: nat): (r: nat)
    requires u < UINT64_SIZE
    ensures r < UINT64_SIZE
  {
    if u == 0 then 0 else UINT64_SIZE - u
  }

  /** The magnitude of d as it is computed; it is right even for the least int64, whose negation is no int64. */
  function Magnitude(d: int): (u: nat)
    requires INT64_MIN <= d <= INT64_MAX
    ensures u == if d < 0 then -d else d
  {
    if d < 0 then Negated(Uint64(d)) else Uint64(d)
  }

  /** humanDuration. All writes stay inside the 32 bytes, and nothing of the fraction shows. */
  method Format(d: int) returns (s: string)
    requires INT64_MIN <= d <= INT64_MAX
    ensures s == Render(d)
  {
    var buf := new char[32];
    var w := 31;
    buf[w] := 's';
    var _, u := FmtFrac(buf, w, Magnitude(d), 9);
    assert u == Seconds(d) by {
      assert Pow10(9) == 1_000_000_000;
    }
    DigitsShort(u % 60, 2);
    w := FmtInt(buf, w, u % 60);
    ghost var seconds := Field(true, u % 60, 's');
    assert buf[w..] == seconds;
    w := PutMinutes(buf, w, u / 60);
    if d < 0 {
      w := Put(buf, w, '-');
    }
    s := buf[w..];
  }

  /** The fields above seconds. */
  method PutMinutes(buf: array<char>, end: nat, minutes: nat) returns (w: nat)
    requires 16 < end <= buf.Length && minutes < 60 * 24 * Pow10(6)
    modifies buf
    ensures 0 < w <= end && buf[w..] == MinuteFields(minutes) + old(buf[end..])
  {
    w := end;
    ghost var after := old(buf[end..]);
    if minutes > 0 {
      w := PutField(buf, w, minutes % 60, 'm', 2);
      after := Field(true, minutes % 60, 'm') + after;
      assert buf[w..] == after;
    }
    w := PutHours(buf, w, minutes / 60);
    assert buf[w..] == HourFields(minutes / 60) + after;
  }

  method PutHours(buf: array<char>, end: nat, hours: nat) returns (w: nat)
    requires 13 < end <= buf.Length && hours < 24 * Pow10(6)
    modifies buf
    ensures 0 < w <= end && buf[w..] == HourFields(hours) + old(buf[end..])
  {
    w := end;
    ghost var after := old(buf[end..]);
    if hours > 0 {
      w := PutField(buf, w, hours % 24, 'h', 2);
      after := Field(true, hours % 24, 'h') + after;
      assert buf[w..] == after;
    }
    w := PutDays(buf, w, hours / 24);
    assert buf[w..] == DayFields(hours / 24) + after;
  }

  method PutDays(buf: array<char>, end: nat, days: nat) returns (w: nat)
    requires 10 < end <= buf.Length && days < Pow10(6)
    modifies buf
    ensures 0 < w <= end && buf[w..] == DayFields(days) + old(buf[end..])
  {
    w := end;
    if days > 0 {
      w := PutField(buf, w, days, 'd', 6);
    }
  }
}
