/**
 * Calendar instants as Python's `datetime` holds them, and the two fixed-width
 * formats the system writes and reads: `strftime` renders an instant through a
 * format made of directives (`%Y`, `%m`, `%d`, `%H`, `%M`, `%S`) and literal
 * characters, `strptime` reads such a string back.
 */
module DateTime {
  import opened Wrappers

  /** A naive (time-zone-free) instant, field by field, as `datetime` stores it. */
  datatype Instant = Instant(year: int, month: int, day: int,
                             hour: int, minute: int, second: int, microsecond: int)

  predicate IsLeapYear(year: int) {
    year % 4 == 0 && (year % 100 != 0 || year % 400 == 0)
  }

  function DaysInMonth(year: int, month: int): (n: int)
    requires 1 <= month <= 12
    ensures 28 <= n <= 31
    ensures n == 29 <==> month == 2 && IsLeapYear(year)
  {
    if month == 2 then (if IsLeapYear(year) then 29 else 28)
    else if month == 4 || month == 6 || month == 9 || month == 11 then 30
    else 31
  }

  /** The instants a `datetime` object can hold (years 1 to 9999). */
  predicate Valid(t: Instant) {
    && 1 <= t.year <= 9999
    && 1 <= t.month <= 12
    && 1 <= t.day <= DaysInMonth(t.year, t.month)
    && 0 <= t.hour < 24
    && 0 <= t.minute < 60
    && 0 <= t.second < 60
    && 0 <= t.microsecond < 1000000
  }

  /** Chronological order: `a` is at or before `b` (`datetime`'s `<=`). */
  predicate AtOrBefore(a: Instant, b: Instant) {
    if a.year != b.year then a.year < b.year
    else if a.month != b.month then a.month < b.month
    else if a.day != b.day then a.day < b.day
    else if a.hour != b.hour then a.hour < b.hour
    else if a.minute != b.minute then a.minute < b.minute
    else if a.second != b.second then a.second < b.second
    else a.microsecond <= b.microsecond
  }

  lemma AtOrBeforeIsTotalOrder(a: Instant, b: Instant, c: Instant)
    ensures AtOrBefore(a, a)
    ensures AtOrBefore(a, b) || AtOrBefore(b, a)
    ensures AtOrBefore(a, b) && AtOrBefore(b, a) ==> a == b
    ensures AtOrBefore(a, b) && AtOrBefore(b, c) ==> AtOrBefore(a, c)
  {
  }

  /** An instant at the top of an hour. */
  predicate OnTheHour(t: Instant) {
    t.minute == 0 && t.second == 0 && t.microsecond == 0
  }

  /** `datetime.replace(minute=0, second=0, microsecond=0)`. */
  function TruncateToHour(t: Instant): (h: Instant)
    ensures OnTheHour(h)
    ensures Valid(t) ==> Valid(h) && AtOrBefore(h, t)
  {
    t.(minute := 0, second := 0, microsecond := 0)
  }

  /** The truncation is the latest instant on the hour that is not after `t`. */
  lemma TruncateToHourIsFloor(t: Instant, u: Instant)
    requires OnTheHour(u) && AtOrBefore(u, t)
    ensures AtOrBefore(u, TruncateToHour(t))
  {
  }

  // ---------------------------------------------------------------------------
  // Formats

  /** One element of a `strftime`/`strptime` format string. */
  datatype Directive = Year | Month | Day | Hour | Minute | Second | Lit(c: char)

  /** `"%Y-%m-%d"`: the date part both stored formats begin with. */
  function DateFormat(): seq<Directive> {
    [Year, Lit('-'), Month, Lit('-'), Day]
  }

  /** `"%Y-%m-%d %H:%M:%S"`: the stored record timestamp, also the dashboard's parse format. */
  function TimestampFormat(): seq<Directive> {
    DateFormat() + [Lit(' '), Hour, Lit(':'), Minute, Lit(':'), Second]
  }

  /** `"%Y-%m-%dT%H:00"`: the forecast's hour bucket. */
  function BucketFormat(): seq<Directive> {
    DateFormat() + [Lit('T'), Hour, Lit(':'), Lit('0'), Lit('0')]
  }

  predicate IsDigit(c: char) {
    '0' <= c <= '9'
  }

  predicate AllDigits(s: string) {
    forall i :: 0 <= i < |s| ==> IsDigit(s[i])
  }

  function DigitValue(c: char): int {
    c as int - '0' as int
  }

  function Digit(d: int): (c: char)
    requires 0 <= d <= 9
    ensures IsDigit(c) && DigitValue(c) == d
  {
    ('0' as int + d) as char
  }

  /** The value of a two-digit decimal string. */
  function Number2(s: string): int
    requires |s| == 2
  {
    10 * DigitValue(s[0]) + DigitValue(s[1])
  }

  /** The value of a four-digit decimal string. */
  function Number4(s: string): int
    requires |s| == 4
  {
    100 * Number2(s[..2]) + Number2(s[2..])
  }

  /** Zero-padded two-digit rendering (`%m`, `%d`, `%H`, `%M`, `%S`). */
  function Pad2(n: int): (s: string)
    requires 0 <= n <= 99
    ensures |s| == 2 && AllDigits(s) && Number2(s) == n
  {
    [Digit(n / 10), Digit(n % 10)]
  }

  /** Zero-padded four-digit rendering (`%Y`). */
  function Pad4(n: int): (s: string)
    requires 0 <= n <= 9999
    ensures |s| == 4 && AllDigits(s) && Number4(s) == n
  {
    var s := Pad2(n / 100) + Pad2(n % 100);
    assert s[..2] == Pad2(n / 100) && s[2..] == Pad2(n % 100);
    s
  }

  lemma {:induction false} Pad2OfNumber2(s: string)
    requires |s| == 2 && AllDigits(s)
    ensures 0 <= Number2(s) <= 99 && Pad2(Number2(s)) == s
  {
    var a, b := DigitValue(s[0]), DigitValue(s[1]);
    assert (10 * a + b) / 10 == a && (10 * a + b) % 10 == b;
  }

  lemma {:induction false} Pad4OfNumber4(s: string)
    requires |s| == 4 && AllDigits(s)
    ensures 0 <= Number4(s) <= 9999 && Pad4(Number4(s)) == s
  {
    var hi, lo := s[..2], s[2..];
    Pad2OfNumber2(hi);
    Pad2OfNumber2(lo);
    var n := Number4(s);
    assert n / 100 == Number2(hi) && n % 100 == Number2(lo);
    assert s == hi + lo;
  }

  /** Characters a directive occupies in a rendered string. */
  function FieldWidth(d: Directive): nat {
    match d
    case Year => 4
    case Lit(_) => 1
    case _ => 2
  }

  /** Characters a whole format occupies: every format here is fixed-width. */
  function Width(fmt: seq<Directive>): nat {
    if fmt == [] then 0 else FieldWidth(fmt[0]) + Width(fmt[1..])
  }

  /** The field of `t` a directive stands for (0 for a literal). */
  function FieldOf(t: Instant, d: Directive): int {
    match d
    case Year => t.year
    case Month => t.month
    case Day => t.day
    case Hour => t.hour
    case Minute => t.minute
    case Second => t.second
    case Lit(_) => 0
  }

  function Render(t: Instant, d: Directive): (s: string)
    requires Valid(t)
    ensures |s| == FieldWidth(d)
  {
    match d
    case Year => Pad4(t.year)
    case Lit(c) => [c]
    case _ => Pad2(FieldOf(t, d))
  }

  /** `t.strftime(fmt)`. */
  function Strftime(t: Instant, fmt: seq<Directive>): (s: string)
    requires Valid(t)
    ensures |s| == Width(fmt)
  {
    if fmt == [] then [] else Render(t, fmt[0]) + Strftime(t, fmt[1..])
  }

  /** `t` with the field a directive stands for set to `v`. */
  function SetField(t: Instant, d: Directive, v: int): Instant {
    match d
    case Year => t.(year := v)
    case Month => t.(month := v)
    case Day => t.(day := v)
    case Hour => t.(hour := v)
    case Minute => t.(minute := v)
    case Second => t.(second := v)
    case Lit(_) => t
  }

  function Value(seg: string, d: Directive): int
    requires |seg| == FieldWidth(d) && !d.Lit?
  {
    if d == Year then Number4(seg) else Number2(seg)
  }

  /**
   * Reads `s` against `fmt`, field by field, starting from `acc`: a literal
   * must match exactly, a field takes exactly its width in digits, and the
   * whole string must be used up.
   */
  function ParseWith(s: string, fmt: seq<Directive>, acc: Instant): (r: Option<Instant>)
    ensures r.Some? ==> r.value.microsecond == acc.microsecond
    ensures r.Some? ==> |s| == Width(fmt)
    decreases fmt
  {
    if fmt == [] then (if s == [] then Some(acc) else None)
    else
      var d, w := fmt[0], FieldWidth(fmt[0]);
      if |s| < w then None
      else if d.Lit? then
        (if s[0] == d.c then ParseWith(s[1..], fmt[1..], acc) else None)
      else if AllDigits(s[..w]) then
        ParseWith(s[w..], fmt[1..], SetField(acc, d, Value(s[..w], d)))
      else None
  }

  lemma StrftimeCons(t: Instant, d: Directive, rest: seq<Directive>)
    requires Valid(t)
    ensures Strftime(t, [d] + rest) == Render(t, d) + Strftime(t, rest)
  {
    assert ([d] + rest)[0] == d && ([d] + rest)[1..] == rest;
  }

  /** Rendering a concatenated format renders each part in turn. */
  lemma {:induction false} StrftimeAppend(t: Instant, p: seq<Directive>, q: seq<Directive>)
    requires Valid(t)
    ensures Strftime(t, p + q) == Strftime(t, p) + Strftime(t, q)
    decreases p
  {
    if p != [] {
      assert (p + q)[0] == p[0] && (p + q)[1..] == p[1..] + q;
      StrftimeAppend(t, p[1..], q);
    } else {
      assert p + q == q;
    }
  }

  /** The fields `strptime` fills in when the format does not mention them. */
  const ParseDefaults: Instant := Instant(1900, 1, 1, 0, 0, 0, 0)

  /**
   * The C-style `strptime(s, fmt)` over fixed-width fields: None where the
   * format does not match or the fields name no calendar date and time.
   */
  function Strptime(s: string, fmt: seq<Directive>): (r: Option<Instant>)
    ensures r.Some? ==> Valid(r.value) && r.value.microsecond == 0
  {
    match ParseWith(s, fmt, ParseDefaults)
    case Some(t) => if Valid(t) then Some(t) else None
    case None => None
  }

  // ---------------------------------------------------------------------------
  // Round trips

  /** `acc` with every field `fmt` mentions taken from `t` (the last mention wins). */
  function Assign(acc: Instant, t: Instant, fmt: seq<Directive>): Instant
    decreases fmt
  {
    if fmt == [] then acc else Assign(SetField(acc, fmt[0], FieldOf(t, fmt[0])), t, fmt[1..])
  }

  lemma {:induction false} AssignFields(acc: Instant, t: Instant, fmt: seq<Directive>, d: Directive)
    requires !d.Lit?
    ensures FieldOf(Assign(acc, t, fmt), d) == if d in fmt then FieldOf(t, d) else FieldOf(acc, d)
    ensures Assign(acc, t, fmt).microsecond == acc.microsecond
    decreases fmt
  {
    if fmt != [] {
      AssignFields(SetField(acc, fmt[0], FieldOf(t, fmt[0])), t, fmt[1..], d);
      assert d in fmt <==> d == fmt[0] || d in fmt[1..];
    }
  }

  lemma {:induction false} RenderDigits(t: Instant, d: Directive)
    requires Valid(t) && !d.Lit?
    ensures AllDigits(Render(t, d)) && Value(Render(t, d), d) == FieldOf(t, d)
  {
  }

  /** Parsing what `Strftime` renders reads back every field the format mentions. */
  lemma {:induction false} ParseWithStrftime(t: Instant, fmt: seq<Directive>, acc: Instant)
    requires Valid(t)
    ensures ParseWith(Strftime(t, fmt), fmt, acc) == Some(Assign(acc, t, fmt))
    decreases fmt
  {
    if fmt != [] {
      var d := fmt[0];
      var head, tail := Render(t, d), Strftime(t, fmt[1..]);
      var s := head + tail;
      assert s[..|head|] == head && s[|head|..] == tail;
      if d.Lit? {
        assert s[0] == d.c;
        ParseWithStrftime(t, fmt[1..], acc);
      } else {
        RenderDigits(t, d);
        ParseWithStrftime(t, fmt[1..], SetField(acc, d, FieldOf(t, d)));
      }
    }
  }

  /** A field directive occurs at most once in `fmt`. */
  predicate NoRepeatedField(fmt: seq<Directive>) {
    forall i, j :: 0 <= i < j < |fmt| && !fmt[i].Lit? ==> fmt[i] != fmt[j]
  }

  lemma {:induction false} ParseWithKeeps(s: string, fmt: seq<Directive>, acc: Instant, d: Directive)
    requires !d.Lit? && d !in fmt && ParseWith(s, fmt, acc).Some?
    ensures FieldOf(ParseWith(s, fmt, acc).value, d) == FieldOf(acc, d)
    decreases fmt
  {
    if fmt != [] {
      var w := FieldWidth(fmt[0]);
      assert d !in fmt[1..];
      if fmt[0].Lit? {
        ParseWithKeeps(s[1..], fmt[1..], acc, d);
      } else {
        ParseWithKeeps(s[w..], fmt[1..], SetField(acc, fmt[0], Value(s[..w], fmt[0])), d);
      }
    }
  }

  /** Rendering what `ParseWith` read gives back the very string it read. */
  lemma {:induction false} StrftimeOfParseWith(s: string, fmt: seq<Directive>, acc: Instant)
    requires NoRepeatedField(fmt)
    requires ParseWith(s, fmt, acc).Some? && Valid(ParseWith(s, fmt, acc).value)
    ensures Strftime(ParseWith(s, fmt, acc).value, fmt) == s
    decreases fmt
  {
    var u := ParseWith(s, fmt, acc).value;
    if fmt != [] {
      var d, w := fmt[0], FieldWidth(fmt[0]);
      assert NoRepeatedField(fmt[1..]) by {
        forall i, j | 0 <= i < j < |fmt[1..]| && !fmt[1..][i].Lit?
          ensures fmt[1..][i] != fmt[1..][j]
        {
          assert fmt[1..][i] == fmt[i + 1] && fmt[1..][j] == fmt[j + 1];
        }
      }
      if d.Lit? {
        StrftimeOfParseWith(s[1..], fmt[1..], acc);
        assert s == [d.c] + s[1..];
      } else {
        var seg := s[..w];
        var acc' := SetField(acc, d, Value(seg, d));
        assert d !in fmt[1..] by {
          forall j | 0 <= j < |fmt[1..]| ensures fmt[1..][j] != d {
            assert fmt[1..][j] == fmt[j + 1];
          }
        }
        StrftimeOfParseWith(s[w..], fmt[1..], acc');
        ParseWithKeeps(s[w..], fmt[1..], acc', d);
        assert FieldOf(u, d) == Value(seg, d);
        if d == Year {
          Pad4OfNumber4(seg);
        } else {
          Pad2OfNumber2(seg);
        }
        assert Render(u, d) == seg;
        assert s == seg + s[w..];
      }
    }
  }

  /** The fields `TimestampFormat()` mentions: all but the microseconds. */
  lemma TimestampFormatFields()
    ensures Year in TimestampFormat() && Month in TimestampFormat() && Day in TimestampFormat()
    ensures Hour in TimestampFormat() && Minute in TimestampFormat() && Second in TimestampFormat()
    ensures NoRepeatedField(TimestampFormat())
  {
    var f := TimestampFormat();
    assert f[0] == Year && f[2] == Month && f[4] == Day && f[6] == Hour && f[8] == Minute && f[10] == Second;
  }

  /** `strptime` of a record timestamp recovers the instant, to the second. */
  lemma TimestampRoundTrip(t: Instant)
    requires Valid(t)
    ensures Strptime(Strftime(t, TimestampFormat()), TimestampFormat()) == Some(t.(microsecond := 0))
  {
    var fmt := TimestampFormat();
    var s := Strftime(t, fmt);
    ParseWithStrftime(t, fmt, ParseDefaults);
    var u := Assign(ParseDefaults, t, fmt);
    assert ParseWith(s, fmt, ParseDefaults) == Some(u);
    TimestampFormatFields();
    AssignFields(ParseDefaults, t, fmt, Year);
    AssignFields(ParseDefaults, t, fmt, Month);
    AssignFields(ParseDefaults, t, fmt, Day);
    AssignFields(ParseDefaults, t, fmt, Hour);
    AssignFields(ParseDefaults, t, fmt, Minute);
    AssignFields(ParseDefaults, t, fmt, Second);
    assert u == t.(microsecond := 0);
  }

  /** A timestamp that parses is exactly the rendering of what it parses to. */
  lemma TimestampParseIsExact(s: string)
    requires Strptime(s, TimestampFormat()).Some?
    ensures Strftime(Strptime(s, TimestampFormat()).value, TimestampFormat()) == s
  {
    TimestampFormatFields();
    StrftimeOfParseWith(s, TimestampFormat(), ParseDefaults);
  }

  // ---------------------------------------------------------------------------
  // String order

  /** Python's `<=` on strings: code point by code point, a prefix first. */
  predicate LexLe(s: string, t: string)
    decreases |s|
  {
    if s == [] then true
    else if t == [] then false
    else if s[0] != t[0] then s[0] < t[0]
    else LexLe(s[1..], t[1..])
  }

  /** For equal-width heads, the first difference decides. */
  lemma {:induction false} LexLeAppend(a1: string, a2: string, b1: string, b2: string)
    requires |a1| == |b1|
    ensures LexLe(a1 + a2, b1 + b2) == if a1 == b1 then LexLe(a2, b2) else LexLe(a1, b1)
    decreases |a1|
  {
    if a1 == [] {
      assert a1 + a2 == a2 && b1 + b2 == b2;
    } else {
      assert (a1 + a2)[0] == a1[0] && (b1 + b2)[0] == b1[0];
      assert (a1 + a2)[1..] == a1[1..] + a2 && (b1 + b2)[1..] == b1[1..] + b2;
      if a1[0] == b1[0] {
        LexLeAppend(a1[1..], a2, b1[1..], b2);
        assert a1 == [a1[0]] + a1[1..] && b1 == [b1[0]] + b1[1..];
      }
    }
  }

  lemma {:induction false} Pad2Order(n: int, m: int)
    requires 0 <= n <= 99 && 0 <= m <= 99
    ensures LexLe(Pad2(n), Pad2(m)) == (n <= m)
    ensures Pad2(n) == Pad2(m) <==> n == m
  {
    var a, b := Pad2(n), Pad2(m);
    LexLeAppend(a[..1], a[1..], b[..1], b[1..]);
    assert a == a[..1] + a[1..] && b == b[..1] + b[1..];
    assert LexLe(a[..1], b[..1]) == (a[0] <= b[0]) by {
      assert a[..1][1..] == [] && b[..1][1..] == [];
    }
    assert LexLe(a[1..], b[1..]) == (a[1] <= b[1]) by {
      assert a[1..][1..] == [] && b[1..][1..] == [];
    }
    assert Number2(a) == n && Number2(b) == m;
  }

  lemma {:induction false} Pad4Order(n: int, m: int)
    requires 0 <= n <= 9999 && 0 <= m <= 9999
    ensures LexLe(Pad4(n), Pad4(m)) == (n <= m)
    ensures Pad4(n) == Pad4(m) <==> n == m
  {
    Pad2Order(n / 100, m / 100);
    Pad2Order(n % 100, m % 100);
    LexLeAppend(Pad2(n / 100), Pad2(n % 100), Pad2(m / 100), Pad2(m % 100));
    assert Number4(Pad4(n)) == n && Number4(Pad4(m)) == m;
  }

  /** Lexicographic comparison of the fields `fmt` mentions, in the order it mentions them. */
  predicate FieldsLe(a: Instant, b: Instant, fmt: seq<Directive>)
    decreases fmt
  {
    if fmt == [] then true
    else if FieldOf(a, fmt[0]) != FieldOf(b, fmt[0]) then FieldOf(a, fmt[0]) < FieldOf(b, fmt[0])
    else FieldsLe(a, b, fmt[1..])
  }

  /** For a fixed-width format, string order is field order. */
  lemma {:induction false} StrftimeOrder(a: Instant, b: Instant, fmt: seq<Directive>)
    requires Valid(a) && Valid(b)
    ensures LexLe(Strftime(a, fmt), Strftime(b, fmt)) == FieldsLe(a, b, fmt)
    decreases fmt
  {
    if fmt != [] {
      var d := fmt[0];
      StrftimeOrder(a, b, fmt[1..]);
      LexLeAppend(Render(a, d), Strftime(a, fmt[1..]), Render(b, d), Strftime(b, fmt[1..]));
      match d
      case Year => Pad4Order(a.year, b.year);
      case Lit(c) =>
        assert LexLe([c], [c]) by { assert [c][1..] == []; }
      case _ => Pad2Order(FieldOf(a, d), FieldOf(b, d));
    }
  }

  /**
   * For parsed timestamps (no microseconds), chronological order is the order
   * of their `"%Y-%m-%d %H:%M:%S"` strings.
   */
  lemma TimestampOrderIsStringOrder(a: Instant, b: Instant)
    requires Valid(a) && Valid(b) && a.microsecond == 0 && b.microsecond == 0
    ensures AtOrBefore(a, b) == LexLe(Strftime(a, TimestampFormat()), Strftime(b, TimestampFormat()))
  {
    StrftimeOrder(a, b, TimestampFormat());
    var f := TimestampFormat();
    assert f[1..][1..][1..][1..][1..][1..][1..][1..][1..][1..][1..] == [];
  }
}
