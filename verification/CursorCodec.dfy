/**
 The key of a keyset cursor: the last row's (created_at, id) as text, written with
 RFC3339Nano (section 5.6 of RFC 3339) and the UUID text form (section 4 of RFC 9562).
 */
module CursorCodec {
  import opened Outcomes
  import opened Numerals
  import opened Calendar

  /** A UUID as the number its sixteen bytes spell, so bytewise order is numeric order. */
  type Uuid = n: nat | n < 0x1_0000_0000_0000_0000_0000_0000_0000_0000

  datatype CodecError = MalformedKey | MalformedTimestamp

  // ---- writing ----

  /** Decimal with at least `width` digits, as Go pads the fields of a layout. */
  function Padding(n: nat, width: nat): (w: nat)
    ensures w >= width && n < Ten.Capacity(w) && (w > width ==> n >= Ten.Capacity(width))
    decreases n - Ten.Capacity(width)
  {
    if n < Ten.Capacity(width) then width else Padding(n, width + 1)
  }

  function YearText(y: int): string {
    if y < 0 then "-" + Numeral(-y, Ten, Padding(-y, 4)) else Numeral(y, Ten, Padding(y, 4))
  }

  function TrimZeros(s: string): (r: string)
    ensures r <= s
  {
    if s != "" && s[|s| - 1] == '0' then TrimZeros(s[..|s| - 1]) else s
  }

  /** The fraction of a second without its trailing zeros; nothing at all when it is zero. */
  function FractionText(nanos: nat): string {
    var digits := TrimZeros(Numeral(nanos, Ten, 9));
    if digits == "" then "" else "." + digits
  }

  function FormatInstant(t: Instant): string {
    var c := ToCivil(t);
    YearText(c.date.year) + DateText(c.date) + ClockText(c.clock)
  }

  /** The month and the day, each behind its hyphen, up to the time of day. */
  function DateText(d: Date): string
    requires d.Valid()
  {
    ['-'] + (Numeral(d.month, Ten, 2) + (['-'] + (Numeral(d.day, Ten, 2) + ['T'])))
  }

  function ClockText(c: Clock): string
    requires c.Valid()
  {
    Numeral(c.hour, Ten, 2) + ([':'] + (Numeral(c.minute, Ten, 2) + ([':']
    + (Numeral(c.second, Ten, 2) + (FractionText(c.nanos) + ['Z'])))))
  }

  function UuidText(id: Uuid): string {
    var h := Numeral(id, Sixteen, 32);
    h[..8] + "-" + h[8..12] + "-" + h[12..16] + "-" + h[16..20] + "-" + h[20..]
  }

  function EncodeCursor(t: Instant, id: Uuid): string {
    FormatInstant(t) + "|" + UuidText(id)
  }

  // ---- reading ----

  function Expect(s: string, c: char): Option<string> {
    if s != "" && s[0] == c then Some(s[1..]) else None
  }

  function TakeNumber(s: string, width: nat): Option<(nat, string)> {
    if |s| < width then None
    else
      var n :- ReadNumeral(s[..width], Ten);
      Some((n, s[width..]))
  }

  function DigitRun(s: string): (n: nat)
    ensures n <= |s| && IsNumeral(s[..n], Ten)
  {
    if s != "" && IsDigit(s[0], Ten) then 1 + DigitRun(s[1..]) else 0
  }

  function PadRight(s: string, width: nat): (r: string)
    requires IsNumeral(s, Ten)
    ensures |s| <= width ==> |r| == width
    ensures IsNumeral(r, Ten)
    decreases width - |s|
  {
    if |s| >= width then s[..width] else PadRight(s + "0", width)
  }

  /** An hour has one digit or two. */
  function TakeHour(s: string): Option<(nat, string)> {
    if |s| >= 2 && IsDigit(s[1], Ten) then TakeNumber(s, 2) else TakeNumber(s, 1)
  }

  /** An optional fraction of any length behind a point or a comma, of which nine digits count. */
  function TakeFraction(s: string): (nat, string) {
    if |s| >= 2 && (s[0] == '.' || s[0] == ',') && IsDigit(s[1], Ten) then
      var n := DigitRun(s[1..]);
      (Value(PadRight(s[1..][..n], 9), Ten), s[1..][n..])
    else
      (0, s)
  }

  function ParseDate(s: string): Option<(Date, string)> {
    var (year, s) :- TakeNumber(s, 4);
    var s :- Expect(s, '-');
    var (month, s) :- TakeNumber(s, 2);
    var s :- Expect(s, '-');
    var (day, s) :- TakeNumber(s, 2);
    var s :- Expect(s, 'T');
    Some((Date(year, month, day), s))
  }

  function ParseClock(s: string): Option<(Clock, string)> {
    var (hour, s) :- TakeHour(s);
    var s :- Expect(s, ':');
    var (minute, s) :- TakeNumber(s, 2);
    var s :- Expect(s, ':');
    var (second, s) :- TakeNumber(s, 2);
    var (nanos, s) := TakeFraction(s);
    Some((Clock(hour, minute, second, nanos), s))
  }

  /** The seconds a zone is ahead of UTC: `Z`, or a signed offset of up to 24 hours and 60 minutes. */
  function ParseZone(s: string): Option<int> {
    if s == "Z" then Some(0)
    else if |s| == 6 && (s[0] == '+' || s[0] == '-') && s[3] == ':' then
      var hours :- ReadNumeral(s[1..3], Ten);
      var minutes :- ReadNumeral(s[4..], Ten);
      var ahead := (hours * 60 + minutes) * 60;
      if hours > 24 || minutes > 60 then None else Some(if s[0] == '+' then ahead else -ahead)
    else None
  }

  /** time.Parse under RFC3339Nano. */
  function ParseInstant(s: string): Option<Instant> {
    var (date, s) :- ParseDate(s);
    var (clock, s) :- ParseClock(s);
    var ahead :- ParseZone(s);
    var c := Civil(date, clock);
    if c.Valid() then Some(c.ToInstant() - ahead * NANOS_PER_SECOND) else None
  }

  /** The text form read strictly: hyphens at the four places and nowhere else. */
  function ParseUuid(s: string): Option<Uuid> {
    if |s| == 36 && s[8] == s[13] == s[18] == s[23] == '-' then
      UuidOf(s[..8] + s[9..13] + s[14..18] + s[19..23] + s[24..])
    else
      None
  }

  function UuidOf(hex: string): Option<Uuid> {
    var n :- ReadNumeral(hex, Sixteen);
    if n < 0x1_0000_0000_0000_0000_0000_0000_0000_0000 then Some(n) else None
  }

  function SkipHyphen(s: string): string {
    if s != "" && s[0] == '-' then s[1..] else s
  }

  /** The hex digits of n groups of four, a hyphen allowed between any two groups. */
  function Groups(s: string, n: nat): Option<string> {
    if n == 0 then (if s == "" then Some("") else None)
    else if |s| < 4 then None
    else
      var digits :- Groups(if n > 1 then SkipHyphen(s[4..]) else s[4..], n - 1);
      Some(s[..4] + digits)
  }

  /** The database's CAST to uuid: maybe in braces, a hyphen allowed behind every four digits. */
  function CastUuid(s: string): Option<Uuid> {
    var bare :- if s != "" && s[0] == '{' then (if s[|s| - 1] == '}' then Some(s[1..|s| - 1]) else None) else Some(s);
    var digits :- Groups(bare, 8);
    UuidOf(digits)
  }

  /** The text before and after the first bar. */
  function Cut(s: string): Option<(string, string)> {
    if s == "" then None
    else if s[0] == '|' then Some(("", s[1..]))
    else
      var (before, after) :- Cut(s[1..]);
      Some(([s[0]] + before, after))
  }

  function DecodeCursor(key: string): Result<(Instant, string), CodecError> {
    match Cut(key)
    case None => Err(MalformedKey)
    case Some((before, after)) =>
      match ParseInstant(before)
      case None => Err(MalformedTimestamp)
      case Some(t) => Ok((t, after))
  }

  // ---- reading what was written ----

  lemma TakeOfNumeral(n: nat, width: nat, rest: string)
    requires n < Ten.Capacity(width)
    ensures TakeNumber(Numeral(n, Ten, width) + rest, width) == Some((n, rest))
  {
    var s := Numeral(n, Ten, width) + rest;
    assert s[..width] == Numeral(n, Ten, width);
    assert s[width..] == rest;
    ReadOfNumeral(n, Ten, width);
  }

  lemma ExpectHead(c: char, rest: string)
    ensures Expect([c] + rest, c) == Some(rest)
  {
    assert ([c] + rest)[1..] == rest;
  }

  lemma {:induction false} RunOfDigits(s: string, rest: string)
    requires IsNumeral(s, Ten) && (rest == "" || !IsDigit(rest[0], Ten))
    ensures DigitRun(s + rest) == |s|
  {
    if s == "" {
      assert s + rest == rest;
    } else {
      assert (s + rest)[1..] == s[1..] + rest;
      RunOfDigits(s[1..], rest);
    }
  }

  lemma {:induction false} PadOfTrim(s: string)
    requires IsNumeral(s, Ten)
    ensures PadRight(TrimZeros(s), |s|) == s
  {
    if s == "" || s[|s| - 1] != '0' {
    } else {
      var u := s[..|s| - 1];
      PadOfTrim(u);
      PadFurther(TrimZeros(u), |u|);
      assert u + "0" == s;
    }
  }

  lemma {:induction false} PadFurther(s: string, width: nat)
    requires IsNumeral(s, Ten) && |s| <= width
    ensures PadRight(s, width + 1) == PadRight(s, width) + "0"
    decreases width - |s|
  {
    if |s| < width {
      PadFurther(s + "0", width);
    } else {
      assert PadRight(s, width) == s;
      assert PadRight(s + "0", width + 1) == s + "0";
    }
  }

  /** A point, some digits and what follows them. */
  lemma FractionOfDigits(digits: string)
    requires IsNumeral(digits, Ten) && digits != ""
    ensures TakeFraction("." + digits + ['Z']) == (Value(PadRight(digits, 9), Ten), "Z")
  {
    var s := "." + digits + ['Z'];
    assert s[1..] == digits + "Z";
    RunOfDigits(digits, "Z");
    assert s[1] == digits[0] && IsDigit(s[1], Ten);
    assert s[1..][..|digits|] == digits;
    assert s[1..][|digits|..] == "Z";
  }

  lemma TakeOfFraction(nanos: nat)
    requires nanos < Ten.Capacity(9)
    ensures TakeFraction(FractionText(nanos) + ['Z']) == (nanos, "Z")
  {
    var full := Numeral(nanos, Ten, 9);
    var digits := TrimZeros(full);
    if digits == "" {
      ZeroOfNothing(nanos);
      assert FractionText(nanos) + ['Z'] == "Z";
    } else {
      PadOfTrim(full);
      ReadOfNumeral(nanos, Ten, 9);
      FractionOfDigits(digits);
    }
  }

  lemma {:induction false} ZeroTrimsAway(width: nat)
    ensures TrimZeros(Numeral(0, Ten, width)) == ""
  {
    if width == 0 {
    } else {
      ZeroTrimsAway(width - 1);
      assert Numeral(0, Ten, width)[..width - 1] == Numeral(0, Ten, width - 1);
    }
  }

  lemma ZeroOfNothing(nanos: nat)
    requires nanos < Ten.Capacity(9) && TrimZeros(Numeral(nanos, Ten, 9)) == ""
    ensures nanos == 0
  {
    PadOfTrim(Numeral(nanos, Ten, 9));
    ZeroTrimsAway(9);
    PadOfTrim(Numeral(0, Ten, 9));
    ReadOfNumeral(nanos, Ten, 9);
    ReadOfNumeral(0, Ten, 9);
  }

  lemma NineDigits(n: nat)
    requires n < NANOS_PER_SECOND
    ensures n < Ten.Capacity(9)
  {
    assert Ten.Capacity(4) == 10_000;
    assert Ten.Capacity(8) == 100_000_000;
  }

  lemma FourDigits()
    ensures Ten.Capacity(4) == 10_000
  {}

  /** An hour written with two digits is read with both. */
  lemma HourOfNumeral(n: nat, rest: string)
    requires n < 100
    ensures TakeHour(Numeral(n, Ten, 2) + rest) == Some((n, rest))
  {
    TakeOfNumeral(n, 2, rest);
    assert (Numeral(n, Ten, 2) + rest)[1] == Numeral(n, Ten, 2)[1];
  }

  lemma ParseOfClock(c: Clock)
    requires c.Valid()
    ensures ParseClock(ClockText(c)) == Some((c, "Z"))
  {
    NineDigits(c.nanos);
    TakeOfFraction(c.nanos);
    var s5 := FractionText(c.nanos) + ['Z'];
    TakeOfNumeral(c.second, 2, s5);
    var s4 := Numeral(c.second, Ten, 2) + s5;
    ExpectHead(':', s4);
    TakeOfNumeral(c.minute, 2, [':'] + s4);
    var s2 := Numeral(c.minute, Ten, 2) + ([':'] + s4);
    ExpectHead(':', s2);
    HourOfNumeral(c.hour, [':'] + s2);
  }

  /** Three numbers that read off, each behind what the layout expects, make a date. */
  lemma DateOfPieces(s: string, behindYear: string, behindMonth: string, d: Date, rest: string)
    requires d.year >= 0 && d.month >= 0 && d.day >= 0
    requires TakeNumber(s, 4) == Some((d.year, ['-'] + behindYear))
    requires TakeNumber(behindYear, 2) == Some((d.month, ['-'] + behindMonth))
    requires TakeNumber(behindMonth, 2) == Some((d.day, ['T'] + rest))
    ensures ParseDate(s) == Some((d, rest))
  {
    ExpectHead('-', behindYear);
    ExpectHead('-', behindMonth);
    ExpectHead('T', rest);
  }

  lemma DateJoins(year: string, month: string, day: string, rest: string)
    ensures year + (['-'] + (month + (['-'] + (day + ['T'])))) + rest
         == year + (['-'] + (month + (['-'] + (day + (['T'] + rest)))))
  {}

  lemma ParseOfDate(d: Date, rest: string)
    requires d.Valid() && 0 <= d.year < 10_000
    ensures ParseDate(YearText(d.year) + DateText(d) + rest) == Some((d, rest))
  {
    var year, month, day := Numeral(d.year, Ten, 4), Numeral(d.month, Ten, 2), Numeral(d.day, Ten, 2);
    var behindMonth := day + (['T'] + rest);
    var behindYear := month + (['-'] + behindMonth);
    FourDigits();
    TakeOfNumeral(d.year, 4, ['-'] + behindYear);
    TakeOfNumeral(d.month, 2, ['-'] + behindMonth);
    TakeOfNumeral(d.day, 2, ['T'] + rest);
    DateJoins(year, month, day, rest);
    DateOfPieces(year + (['-'] + behindYear), behindYear, behindMonth, d, rest);
  }

  /** A year of five digits or before year zero makes a text the parser refuses. */
  lemma LongYearRefused(y: int, rest: string)
    requires y < 0 || y >= 10_000
    ensures ParseDate(YearText(y) + rest).None?
  {
    var s := YearText(y) + rest;
    FourDigits();
    if y < 0 {
      assert s[..4][0] == '-';
    } else {
      assert |YearText(y)| > 4;
      assert s[4..][0] == YearText(y)[4];
      assert IsDigit(s[4], Ten);
    }
  }

  /** A date, a time of day and a zone that read off make the instant, the zone taken off again. */
  lemma InstantOfParts(s: string, time: string, zone: string, c: Civil, ahead: int)
    requires ParseDate(s) == Some((c.date, time))
    requires ParseClock(time) == Some((c.clock, zone)) && ParseZone(zone) == Some(ahead)
    ensures ParseInstant(s) == if c.Valid() then Some(c.ToInstant() - ahead * 1_000_000_000) else None
  {}

  lemma OffsetPieces(sign: char, h: string, m: string)
    requires |h| == 2 && |m| == 2
    ensures var s := [sign] + h + [':'] + m;
            |s| == 6 && s != "Z" && s[0] == sign && s[3] == ':' && s[1..3] == h && s[4..] == m
  {}

  lemma ZoneOfPieces(s: string, hours: nat, minutes: nat)
    requires |s| == 6 && (s[0] == '+' || s[0] == '-') && s[3] == ':'
    requires ReadNumeral(s[1..3], Ten) == Some(hours) && ReadNumeral(s[4..], Ten) == Some(minutes)
    ensures ParseZone(s) == if hours > 24 || minutes > 60 then None
                            else if s[0] == '+' then Some(3600 * hours + 60 * minutes)
                            else Some(-3600 * hours - 60 * minutes)
  {}

  /** An offset of hours and minutes is read with its sign, up to 24 hours and 60 minutes. */
  lemma ZoneOfOffset(sign: char, hours: nat, minutes: nat)
    requires (sign == '+' || sign == '-') && hours < 100 && minutes < 100
    ensures ParseZone([sign] + Numeral(hours, Ten, 2) + [':'] + Numeral(minutes, Ten, 2))
         == if hours > 24 || minutes > 60 then None
            else if sign == '+' then Some(3600 * hours + 60 * minutes) else Some(-3600 * hours - 60 * minutes)
  {
    ReadOfNumeral(hours, Ten, 2);
    ReadOfNumeral(minutes, Ten, 2);
    OffsetPieces(sign, Numeral(hours, Ten, 2), Numeral(minutes, Ten, 2));
    ZoneOfPieces([sign] + Numeral(hours, Ten, 2) + [':'] + Numeral(minutes, Ten, 2), hours, minutes);
  }

  /** An hour may be written with one digit, and a comma may stand for the point of a fraction. */
  lemma LenientForms(hour: nat, rest: string, digits: string)
    requires hour < 10 && digits != "" && IsNumeral(digits, Ten)
    ensures TakeHour(Numeral(hour, Ten, 1) + (":" + rest)) == Some((hour, ":" + rest))
    ensures TakeFraction("," + digits + ['Z']) == TakeFraction("." + digits + ['Z'])
  {
    TakeOfNumeral(hour, 1, ":" + rest);
    assert (Numeral(hour, Ten, 1) + (":" + rest))[1] == ':';
    var comma, point := "," + digits + ['Z'], "." + digits + ['Z'];
    assert comma[1..] == point[1..];
  }

  /** An instant reads back exactly when its year has the four digits the layout has room for. */
  lemma InstantRoundTrip(t: Instant)
    ensures ParseInstant(FormatInstant(t))
         == if 0 <= ToCivil(t).date.year < 10_000 then Some(t) else None
  {
    var c := ToCivil(t);
    if 0 <= c.date.year < 10_000 {
      ParseOfDate(c.date, ClockText(c.clock));
      ParseOfClock(c.clock);
      InstantOfParts(FormatInstant(t), ClockText(c.clock), "Z", c, 0);
    } else {
      LongYearRefused(c.date.year, DateText(c.date) + ClockText(c.clock));
      assert FormatInstant(t) == YearText(c.date.year) + (DateText(c.date) + ClockText(c.clock));
    }
  }

  lemma SixteenBytes()
    ensures Sixteen.Capacity(32) == 0x1_0000_0000_0000_0000_0000_0000_0000_0000
  {
    assert Sixteen.Capacity(8) == 0x1_0000_0000;
    assert Sixteen.Capacity(16) == 0x1_0000_0000_0000_0000;
    assert Sixteen.Capacity(24) == 0x1_0000_0000_0000_0000_0000_0000;
  }

  lemma UuidTextIs(id: Uuid)
    ensures var h, s := Numeral(id, Sixteen, 32), UuidText(id);
            && |s| == 36 && s[8] == s[13] == s[18] == s[23] == '-'
            && s[..8] == h[..8] && s[9..13] == h[8..12] && s[14..18] == h[12..16] && s[19..23] == h[16..20] && s[24..] == h[20..]
  {}

  lemma UuidRoundTrip(id: Uuid)
    ensures ParseUuid(UuidText(id)) == Some(id)
  {
    var h := Numeral(id, Sixteen, 32);
    UuidTextIs(id);
    assert h[..8] + h[8..12] + h[12..16] + h[16..20] + h[20..] == h;
    HexOfUuid(id);
  }

  // ---- the cast of what was written ----

  /** A group in front of the others, with a hyphen behind it or without. */
  lemma GroupBefore(group: string, tail: string, digits: string, n: nat)
    requires |group| == 4 && n > 1 && tail != "" && tail[0] != '-'
    requires Groups(tail, n - 1) == Some(digits)
    ensures Groups(group + tail, n) == Some(group + digits)
    ensures Groups(group + ("-" + tail), n) == Some(group + digits)
  {
    assert (group + tail)[..4] == group && (group + tail)[4..] == tail;
    var s := group + ("-" + tail);
    assert s[..4] == group && s[4..] == "-" + tail && ("-" + tail)[1..] == tail;
  }

  lemma LastGroup(group: string)
    requires |group| == 4
    ensures Groups(group, 1) == Some(group)
  {
    assert group[4..] == "" && group[..4] == group;
    assert Groups("", 0) == Some("") && group + "" == group;
  }

  lemma HeadOf(group: string, tail: string)
    requires IsNumeral(group, Sixteen) && |group| == 4
    ensures (group + tail)[0] != '-'
  {
    assert IsDigit(group[0], Sixteen);
  }

  /** Eight groups of hex digits, four hyphens between them, give their digits back. */
  lemma EightGroups(a: string, b: string, c: string, d: string, e: string, f: string, g: string, h: string)
    requires forall x | x in [a, b, c, d, e, f, g, h] :: IsNumeral(x, Sixteen) && |x| == 4
    ensures Groups(a + (b + ("-" + (c + ("-" + (d + ("-" + (e + ("-" + (f + (g + h)))))))))), 8)
         == Some(a + (b + (c + (d + (e + (f + (g + h)))))))
  {
    var s6 := g + h;
    var s5 := f + s6;
    var s4 := e + ("-" + s5);
    var s3 := d + ("-" + s4);
    var s2 := c + ("-" + s3);
    var s1 := b + ("-" + s2);
    assert a in [a, b, c, d, e, f, g, h] && b in [a, b, c, d, e, f, g, h] && c in [a, b, c, d, e, f, g, h]
        && d in [a, b, c, d, e, f, g, h] && e in [a, b, c, d, e, f, g, h] && f in [a, b, c, d, e, f, g, h]
        && g in [a, b, c, d, e, f, g, h] && h in [a, b, c, d, e, f, g, h];
    HeadOf(h, "");
    assert h + "" == h;
    HeadOf(g, h);
    HeadOf(f, s6);
    HeadOf(e, "-" + s5);
    HeadOf(d, "-" + s4);
    HeadOf(c, "-" + s3);
    HeadOf(b, "-" + s2);
    LastGroup(h);
    GroupBefore(g, h, h, 2);
    GroupBefore(f, s6, g + h, 3);
    GroupBefore(e, s5, f + (g + h), 4);
    GroupBefore(d, s4, e + (f + (g + h)), 5);
    GroupBefore(c, s3, d + (e + (f + (g + h))), 6);
    GroupBefore(b, s2, c + (d + (e + (f + (g + h)))), 7);
    GroupBefore(a, s1, b + (c + (d + (e + (f + (g + h))))), 8);
  }

  lemma HyphensJoin(x: string, y: string, c: string, d: string, e: string, f: string, g: string, h: string)
    ensures x + y + "-" + c + "-" + d + "-" + e + "-" + (f + (g + h))
         == x + (y + ("-" + (c + ("-" + (d + ("-" + (e + ("-" + (f + (g + h))))))))))
  {
    var s1 := "-" + (f + (g + h));
    var s2 := e + s1;
    var s3 := "-" + s2;
    var s4 := d + s3;
    var s5 := "-" + s4;
    var s6 := c + s5;
    var all := x + y + "-" + c + "-" + d + "-" + e + "-" + (f + (g + h));
    assert all == x + y + "-" + c + "-" + d + "-" + e + s1;
    assert all == x + y + "-" + c + "-" + d + "-" + s2;
    assert all == x + y + "-" + c + "-" + d + s3;
    assert all == x + y + "-" + c + "-" + s4;
    assert all == x + y + "-" + c + s5;
    assert all == x + y + "-" + s6;
    assert all == x + (y + ("-" + s6));
  }

  lemma TextGroups(h: string)
    requires |h| == 32
    ensures h[..8] + "-" + h[8..12] + "-" + h[12..16] + "-" + h[16..20] + "-" + h[20..]
         == h[..4] + (h[4..8] + ("-" + (h[8..12] + ("-" + (h[12..16] + ("-" + (h[16..20]
            + ("-" + (h[20..24] + (h[24..28] + h[28..]))))))))))
  {
    var first, last := h[..8], h[20..];
    var x, y, c, d, e, f, g, i := h[..4], h[4..8], h[8..12], h[12..16], h[16..20], h[20..24], h[24..28], h[28..];
    assert first == x + y;
    assert last == f + (g + i);
    HyphensJoin(x, y, c, d, e, f, g, i);
    assert first + "-" + c + "-" + d + "-" + e + "-" + last == x + y + "-" + c + "-" + d + "-" + e + "-" + (f + (g + i));
  }

  lemma EightJoin(h: string)
    requires |h| == 32
    ensures h == h[..4] + (h[4..8] + (h[8..12] + (h[12..16] + (h[16..20] + (h[20..24] + (h[24..28] + h[28..]))))))
  {
    assert h[24..] == h[24..28] + h[28..];
    assert h[20..] == h[20..24] + h[24..];
    assert h[16..] == h[16..20] + h[20..];
    assert h[12..] == h[12..16] + h[16..];
    assert h[8..] == h[8..12] + h[12..];
    assert h[4..] == h[4..8] + h[8..];
    assert h == h[..4] + h[4..];
  }

  lemma GroupsOfText(id: Uuid)
    ensures Groups(UuidText(id), 8) == Some(Numeral(id, Sixteen, 32))
  {
    var h := Numeral(id, Sixteen, 32);
    TextGroups(h);
    EightJoin(h);
    EightGroups(h[..4], h[4..8], h[8..12], h[12..16], h[16..20], h[20..24], h[24..28], h[28..]);
  }

  lemma BareCast(s: string, digits: string)
    requires s != "" && s[0] != '{' && Groups(s, 8) == Some(digits)
    ensures CastUuid(s) == UuidOf(digits)
  {}

  lemma HexOfUuid(id: Uuid)
    ensures UuidOf(Numeral(id, Sixteen, 32)) == Some(id)
    ensures UuidText(id)[0] != '{'
  {
    SixteenBytes();
    ReadOfNumeral(id, Sixteen, 32);
    assert IsDigit(Numeral(id, Sixteen, 32)[0], Sixteen);
  }

  /** The database casts the text of a UUID to that UUID. */
  lemma CastOfText(id: Uuid)
    ensures CastUuid(UuidText(id)) == Some(id)
  {
    HexOfUuid(id);
    GroupsOfText(id);
    BareCast(UuidText(id), Numeral(id, Sixteen, 32));
  }

  lemma {:induction false} GroupsOfHex(hex: string, n: nat)
    requires IsNumeral(hex, Sixteen) && |hex| == 4 * n
    ensures Groups(hex, n) == Some(hex)
  {
    if n == 0 {
    } else {
      var tail := hex[4..];
      GroupsOfHex(tail, n - 1);
      assert tail != "" ==> IsDigit(tail[0], Sixteen);
      assert SkipHyphen(tail) == tail;
      assert hex == hex[..4] + tail;
    }
  }

  /** The database takes the digits without hyphens too, and the text in braces. */
  lemma CastForms(id: Uuid)
    ensures CastUuid(Numeral(id, Sixteen, 32)) == Some(id)
    ensures CastUuid("{" + UuidText(id) + "}") == Some(id)
  {
    var hex := Numeral(id, Sixteen, 32);
    HexOfUuid(id);
    GroupsOfHex(hex, 8);
    assert IsDigit(hex[0], Sixteen);
    BareCast(hex, hex);
    GroupsOfText(id);
    var s := "{" + UuidText(id) + "}";
    assert s[1..|s| - 1] == UuidText(id);
  }

  // ---- what the texts look like ----

  predicate LowerHex(c: char) {
    '0' <= c <= '9' || 'a' <= c <= 'f'
  }

  lemma {:induction false} NumeralIsLower(n: nat, base: Base, width: nat)
    ensures forall i | 0 <= i < width :: LowerHex(Numeral(n, base, width)[i])
  {
    if width == 0 {
    } else {
      NumeralIsLower(base.Over(n), base, width - 1);
    }
  }

  /** Thirty-two lower-case hex digits, with hyphens behind the 8th, 12th, 16th and 20th. */
  lemma UuidTextShape(id: Uuid)
    ensures |UuidText(id)| == 36
    ensures forall i | 0 <= i < 36 :: if i in {8, 13, 18, 23} then UuidText(id)[i] == '-' else LowerHex(UuidText(id)[i])
  {
    NumeralIsLower(id, Sixteen, 32);
    UuidTextIs(id);
    var h, s := Numeral(id, Sixteen, 32), UuidText(id);
    forall i | 0 <= i < 36 && i !in {8, 13, 18, 23}
      ensures LowerHex(s[i])
    {
      if i < 8 {
        assert s[i] == s[..8][i] == h[i];
      } else if i < 13 {
        assert s[i] == s[9..13][i - 9] == h[i - 1];
      } else if i < 18 {
        assert s[i] == s[14..18][i - 14] == h[i - 2];
      } else if i < 23 {
        assert s[i] == s[19..23][i - 19] == h[i - 3];
      } else {
        assert s[i] == s[24..][i - 24] == h[i - 4];
      }
    }
  }

  lemma DateShape(d: Date)
    requires d.Valid() && 0 <= d.year < 10_000
    ensures var s := YearText(d.year) + DateText(d);
            && |s| == 11 && s[4] == '-' && s[7] == '-' && s[10] == 'T'
            && ReadNumeral(s[..4], Ten) == Some(d.year) && ReadNumeral(s[5..7], Ten) == Some(d.month)
            && ReadNumeral(s[8..10], Ten) == Some(d.day)
  {
    var year, month, day := Numeral(d.year, Ten, 4), Numeral(d.month, Ten, 2), Numeral(d.day, Ten, 2);
    var s := year + (['-'] + (month + (['-'] + (day + ['T']))));
    FourDigits();
    ReadOfNumeral(d.year, Ten, 4);
    ReadOfNumeral(d.month, Ten, 2);
    ReadOfNumeral(d.day, Ten, 2);
    assert s[..4] == year && s[5..7] == month && s[8..10] == day;
  }

  lemma ClockShape(c: Clock)
    requires c.Valid()
    ensures var s := ClockText(c);
            && |s| >= 9 && s[2] == ':' && s[5] == ':' && s[|s| - 1] == 'Z'
            && ReadNumeral(s[..2], Ten) == Some(c.hour) && ReadNumeral(s[3..5], Ten) == Some(c.minute)
            && ReadNumeral(s[6..8], Ten) == Some(c.second) && s[8..|s| - 1] == FractionText(c.nanos)
  {
    var hour, minute, second := Numeral(c.hour, Ten, 2), Numeral(c.minute, Ten, 2), Numeral(c.second, Ten, 2);
    var s := hour + ([':'] + (minute + ([':'] + (second + (FractionText(c.nanos) + ['Z'])))));
    ReadOfNumeral(c.hour, Ten, 2);
    ReadOfNumeral(c.minute, Ten, 2);
    ReadOfNumeral(c.second, Ten, 2);
    assert s[..2] == hour && s[3..5] == minute && s[6..8] == second && s[8..] == FractionText(c.nanos) + ['Z'];
    assert s[8..|s| - 1] == FractionText(c.nanos);
  }

  /** A fraction is a point and up to nine digits that do not end in zero, and is left out when it is zero. */
  lemma FractionShape(nanos: nat)
    requires nanos < NANOS_PER_SECOND
    ensures var f := FractionText(nanos);
            && (f == "" <==> nanos == 0)
            && (f != "" ==> 2 <= |f| <= 10 && f[0] == '.' && f[|f| - 1] != '0'
                            && IsNumeral(f[1..], Ten) && Value(PadRight(f[1..], 9), Ten) == nanos)
  {
    NineDigits(nanos);
    var full := Numeral(nanos, Ten, 9);
    TrimmedEnd(full);
    PadOfTrim(full);
    ReadOfNumeral(nanos, Ten, 9);
    if TrimZeros(full) == "" {
      ZeroOfNothing(nanos);
    } else if nanos == 0 {
      ZeroTrimsAway(9);
    }
  }

  lemma {:induction false} PadOfLong(digits: string, width: nat)
    requires IsNumeral(digits, Ten) && |digits| >= width
    ensures PadRight(digits, width) == digits[..width]
  {}

  /** Of a longer fraction the first nine digits count. */
  lemma LongFraction(digits: string)
    requires IsNumeral(digits, Ten) && |digits| >= 9
    ensures TakeFraction("." + digits + ['Z']) == (Value(digits[..9], Ten), "Z")
  {
    FractionOfDigits(digits);
    PadOfLong(digits, 9);
  }

  lemma {:induction false} TrimmedEnd(s: string)
    ensures TrimZeros(s) != "" ==> TrimZeros(s)[|TrimZeros(s)| - 1] != '0'
  {
    if s == "" || s[|s| - 1] != '0' {
    } else {
      TrimmedEnd(s[..|s| - 1]);
    }
  }

  predicate NoBar(s: string) {
    forall i | 0 <= i < |s| :: s[i] != '|'
  }

  lemma {:induction false} CutAtBar(s: string, rest: string)
    requires NoBar(s)
    ensures Cut(s + "|" + rest) == Some((s, rest))
  {
    var whole := s + "|" + rest;
    if s == "" {
      assert whole == "|" + rest;
    } else {
      assert whole[1..] == s[1..] + "|" + rest;
      assert whole[0] == s[0] && [s[0]] + s[1..] == s;
      CutAtBar(s[1..], rest);
    }
  }

  lemma {:induction false} NoBarNoCut(s: string)
    ensures Cut(s).None? <==> NoBar(s)
  {
    if s == "" {
    } else {
      NoBarNoCut(s[1..]);
      assert forall i | 1 <= i < |s| :: s[i] == s[1..][i - 1];
      assert NoBar(s) <==> s[0] != '|' && NoBar(s[1..]);
    }
  }

  /**
   What a key decodes to: it is malformed without a bar, and with one the text before the first
   bar must be a timestamp; what is behind the bar is handed on as it is.
   */
  lemma DecodeMeans(before: string, after: string)
    requires NoBar(before)
    ensures DecodeCursor(before) == Err(MalformedKey)
    ensures DecodeCursor(before + "|" + after)
         == match ParseInstant(before) case None => Err(MalformedTimestamp) case Some(t) => Ok((t, after))
  {
    NoBarNoCut(before);
    CutAtBar(before, after);
  }

  lemma NumeralHasNoBar(s: string, base: Base)
    requires IsNumeral(s, base)
    ensures NoBar(s)
  {
    forall i | 0 <= i < |s|
      ensures s[i] != '|'
    {
      assert IsDigit(s[i], base);
    }
  }

  lemma InstantHasNoBar(t: Instant)
    ensures NoBar(FormatInstant(t))
  {
    var c := ToCivil(t);
    NumeralHasNoBar(Numeral(c.clock.nanos, Ten, 9), Ten);
    NumeralHasNoBar(Numeral(if c.date.year < 0 then -c.date.year else c.date.year, Ten,
                            Padding(if c.date.year < 0 then -c.date.year else c.date.year, 4)), Ten);
    NumeralHasNoBar(Numeral(c.date.month, Ten, 2), Ten);
    NumeralHasNoBar(Numeral(c.date.day, Ten, 2), Ten);
    NumeralHasNoBar(Numeral(c.clock.hour, Ten, 2), Ten);
    NumeralHasNoBar(Numeral(c.clock.minute, Ten, 2), Ten);
    NumeralHasNoBar(Numeral(c.clock.second, Ten, 2), Ten);
    assert NoBar(YearText(c.date.year));
    assert NoBar(FractionText(c.clock.nanos));
    assert NoBar(ClockText(c.clock));
    assert NoBar(DateText(c.date));
  }

  /**
   A cursor key reads back as the boundary it was written for, and its id casts back to
   that id, exactly when the timestamp's year is 0 to 9999; otherwise the key is refused.
   It is never the empty key, which would mean the first page.
   */
  lemma CursorRoundTrip(t: Instant, id: Uuid)
    ensures EncodeCursor(t, id) != ""
    ensures DecodeCursor(EncodeCursor(t, id))
         == if 0 <= ToCivil(t).date.year < 10_000 then Ok((t, UuidText(id))) else Err(MalformedTimestamp)
    ensures CastUuid(UuidText(id)) == Some(id)
  {
    InstantHasNoBar(t);
    CutAtBar(FormatInstant(t), UuidText(id));
    InstantRoundTrip(t);
    CastOfText(id);
  }
}
