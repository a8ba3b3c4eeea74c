/**
 Maintenance windows: the membership test and the Unix-time formatter of the
 shared package, and the time-zone conversion of the user interface.
 */
module Maintenance {
  import opened Text
  import opened Values

  const DAY := 1440               // minutes
  const MAX_DATE_SECONDS := 8_640_000_000_000   // beyond this a JavaScript Date is invalid

  // ----- packages/shared -----

  // JavaScript's `a < b` on strings.
  predicate Less(a: string, b: string) {
    if b == "" then false
    else if a == "" then true
    else if a[0] != b[0] then a[0] < b[0]
    else Less(a[1..], b[1..])
  }

  // `/^\d{2}:\d{2}$/`
  predicate LooksLikeTime(time: string) {
    |time| == 5 && time[2] == ':' && IsDigit(time[0]) && IsDigit(time[1]) && IsDigit(time[3]) && IsDigit(time[4])
  }

  function TwoDigits(s: string): nat
    requires |s| == 2 && IsDigit(s[0]) && IsDigit(s[1])
  {
    DigitValue(s[0]) * 10 + DigitValue(s[1])
  }

  predicate IsValidTimeHHMM(time: string) {
    LooksLikeTime(time) && TwoDigits(time[..2]) <= 23 && TwoDigits(time[3..]) <= 59
  }

  predicate IsInMaintenanceWindow(now: string, start: string, end: string) {
    if Less(start, end) then !Less(now, start) && Less(now, end)
    else !Less(now, start) || Less(now, end)
  }

  // `n.toString().padStart(2, "0")`
  function Pad2(n: nat): string {
    if |Print(n)| < 2 then "0" + Print(n) else Print(n)
  }

  function Format(hours: nat, minutes: nat): string {
    Pad2(hours) + ":" + Pad2(minutes)
  }

  // Hours and minutes of `new Date(unixSeconds * 1000)` in UTC.
  function ToUtcHHMM(unixSeconds: int): string {
    if -MAX_DATE_SECONDS <= unixSeconds <= MAX_DATE_SECONDS
    then Format(unixSeconds / 3600 % 24, unixSeconds / 60 % 60)
    else "NaN:NaN"
  }

  // ----- packages/ui -----

  function ParseHHMM(time: string): Option<(nat, nat)> {
    if !LooksLikeTime(time) then None
    else
      var h, m := TwoDigits(time[..2]), TwoDigits(time[3..]);
      if h > 23 || m > 59 then None else Some((h, m))
  }

  // JavaScript's `%`: the remainder has the sign of the dividend.
  function JsRemainder(a: int, n: int): int
    requires n > 0
  {
    if a >= 0 then a % n else -(-a % n)
  }

  function LocalHHMMToUtc(local: string, offsetMinutes: int): string {
    match ParseHHMM(local)
    case None => local
    case Some((h, m)) =>
      var total := h * 60 + m - offsetMinutes;
      var normalized := JsRemainder(JsRemainder(total, DAY) + DAY, DAY);
      NormalizedIsModulo(total);
      Format(normalized / 60, normalized % 60)
  }

  function UtcHHMMToLocal(utc: string, offsetMinutes: int): string {
    LocalHHMMToUtc(utc, -offsetMinutes)
  }

  lemma NormalizedIsModulo(total: int)
    ensures JsRemainder(JsRemainder(total, DAY) + DAY, DAY) == total % DAY
  {
    if total >= 0 {
      ModuloShift(total % DAY, 1);
    } else {
      var q := -total / DAY;
      assert DAY - -total % DAY == total + DAY * (q + 1);
      ModuloShift(total, q + 1);
    }
  }

  // ----- Valid times are minutes of the day -----

  function Minutes(time: string): (m: nat)
    requires IsValidTimeHHMM(time)
    ensures m < DAY
  {
    TwoDigits(time[..2]) * 60 + TwoDigits(time[3..])
  }

  lemma Pad2Digits(n: nat)
    requires n < 100
    ensures |Pad2(n)| == 2 && IsDigit(Pad2(n)[0]) && IsDigit(Pad2(n)[1])
    ensures TwoDigits(Pad2(n)) == n
  {
    if n >= 10 {
      assert Print(n / 10) == [DigitChar(n / 10)];
    }
  }

  lemma TwoDigitsUnique(s: string, t: string)
    requires |s| == 2 && IsDigit(s[0]) && IsDigit(s[1]) && |t| == 2 && IsDigit(t[0]) && IsDigit(t[1])
    requires TwoDigits(s) == TwoDigits(t)
    ensures s == t
  {
    assert DigitChar(DigitValue(s[0])) == s[0] && DigitChar(DigitValue(s[1])) == s[1];
  }

  lemma FormatIsValid(hours: nat, minutes: nat)
    requires hours < 24 && minutes < 60
    ensures IsValidTimeHHMM(Format(hours, minutes))
    ensures Minutes(Format(hours, minutes)) == hours * 60 + minutes
    ensures ParseHHMM(Format(hours, minutes)) == Some((hours, minutes))
  {
    Pad2Digits(hours);
    Pad2Digits(minutes);
    var s := Format(hours, minutes);
    assert s[..2] == Pad2(hours) && s[3..] == Pad2(minutes);
  }

  lemma ValidIsFormatted(time: string)
    requires IsValidTimeHHMM(time)
    ensures time == Format(Minutes(time) / 60, Minutes(time) % 60)
  {
    var h, m := TwoDigits(time[..2]), TwoDigits(time[3..]);
    assert Minutes(time) / 60 == h && Minutes(time) % 60 == m;
    Pad2Digits(h);
    Pad2Digits(m);
    TwoDigitsUnique(time[..2], Pad2(h));
    TwoDigitsUnique(time[3..], Pad2(m));
    assert time == time[..2] + ":" + time[3..];
  }

  /** The validator accepts exactly the zero-padded 24-hour times, and so does the parser. */
  lemma ValidTimes(time: string)
    ensures IsValidTimeHHMM(time) <==> exists h: nat, m: nat :: h < 24 && m < 60 && time == Format(h, m)
    ensures IsValidTimeHHMM(time) <==> ParseHHMM(time).Some?
  {
    if IsValidTimeHHMM(time) {
      ValidIsFormatted(time);
      var h, m := Minutes(time) / 60, Minutes(time) % 60;
      assert time == Format(h, m);
    }
    forall h: nat, m: nat | h < 24 && m < 60 && time == Format(h, m) ensures IsValidTimeHHMM(time) {
      FormatIsValid(h, m);
    }
  }

  lemma MinutesDetermine(a: string, b: string)
    requires IsValidTimeHHMM(a) && IsValidTimeHHMM(b)
    ensures a == b <==> Minutes(a) == Minutes(b)
  {
    ValidIsFormatted(a);
    ValidIsFormatted(b);
  }

  /** Lexicographic order is the order of the minutes. */
  lemma LessIsMinuteOrder(a: string, b: string)
    requires IsValidTimeHHMM(a) && IsValidTimeHHMM(b)
    ensures Less(a, b) <==> Minutes(a) < Minutes(b)
  {
    assert Less(a, b) == if a[0] != b[0] then a[0] < b[0] else Less(a[1..], b[1..]);
    assert Less(a[1..], b[1..]) == if a[1] != b[1] then a[1] < b[1] else Less(a[2..], b[2..]);
    assert Less(a[2..], b[2..]) == Less(a[3..], b[3..]);
    assert Less(a[3..], b[3..]) == if a[3] != b[3] then a[3] < b[3] else Less(a[4..], b[4..]);
    assert Less(a[4..], b[4..]) == if a[4] != b[4] then a[4] < b[4] else Less(a[5..], b[5..]);
  }

  // ----- The window is an interval of the circle of minutes -----

  // Minutes from `start` forward to `now`, around midnight if need be.
  function Ahead(start: int, now: int): nat {
    (now - start) % DAY
  }

  // The reference definition: `now` is less far ahead of the start than the end is.
  predicate OnCircle(now: int, start: int, end: int) {
    Ahead(start, end) == 0 || Ahead(start, now) < Ahead(start, end)
  }

  lemma CircleInMinutes(now: nat, start: nat, end: nat)
    requires now < DAY && start < DAY && end < DAY
    ensures OnCircle(now, start, end) <==> if start < end then start <= now < end else start <= now || now < end
  {
    AheadInMinutes(start, now);
    AheadInMinutes(start, end);
  }

  lemma AheadInMinutes(start: nat, now: nat)
    requires now < DAY && start < DAY
    ensures Ahead(start, now) == if start <= now then now - start else now - start + DAY
  {
  }

  /** Both branches of the code, same-day and cross-midnight, are one circular interval. */
  lemma WindowIsCircular(now: string, start: string, end: string)
    requires IsValidTimeHHMM(now) && IsValidTimeHHMM(start) && IsValidTimeHHMM(end)
    ensures IsInMaintenanceWindow(now, start, end) <==> OnCircle(Minutes(now), Minutes(start), Minutes(end))
  {
    LessIsMinuteOrder(start, end);
    LessIsMinuteOrder(now, start);
    LessIsMinuteOrder(now, end);
    CircleInMinutes(Minutes(now), Minutes(start), Minutes(end));
  }

  lemma ConversionShifts(time: string, offset: int)
    requires IsValidTimeHHMM(time)
    ensures IsValidTimeHHMM(LocalHHMMToUtc(time, offset))
    ensures Minutes(LocalHHMMToUtc(time, offset)) == (Minutes(time) - offset) % DAY
  {
    var total := Minutes(time) - offset;
    NormalizedIsModulo(total);
    FormatIsValid(total % DAY / 60, total % DAY % 60);
  }

  lemma AheadIgnoresShift(a: int, b: int, offset: int)
    ensures Ahead((a - offset) % DAY, (b - offset) % DAY) == Ahead(a, b)
  {
    var x, y := (a - offset) / DAY, (b - offset) / DAY;
    assert (b - offset) % DAY - (a - offset) % DAY == (b - a) + DAY * (x - y);
    ModuloShift(b - a, x - y);
  }

  lemma ModuloShift(n: int, k: int)
    ensures (n + DAY * k) % DAY == n % DAY
  {
    var q := n / DAY;
    assert n + DAY * k == DAY * (q + k) + n % DAY;
  }

  ghost predicate Shifted(time: string, shifted: string, offset: int) {
    && IsValidTimeHHMM(time)
    && IsValidTimeHHMM(shifted)
    && Minutes(shifted) == (Minutes(time) - offset) % DAY
  }

  lemma ShiftedWindow(now: string, start: string, end: string, now': string, start': string, end': string, offset: int)
    requires Shifted(now, now', offset) && Shifted(start, start', offset) && Shifted(end, end', offset)
    ensures IsInMaintenanceWindow(now', start', end') <==> IsInMaintenanceWindow(now, start, end)
  {
    WindowIsCircular(now, start, end);
    WindowIsCircular(now', start', end');
    AheadIgnoresShift(Minutes(start), Minutes(end), offset);
    AheadIgnoresShift(Minutes(start), Minutes(now), offset);
  }

  /** A window stored in UTC admits the same instants as the local window the user picked. */
  lemma ShiftKeepsWindow(now: string, start: string, end: string, offset: int)
    requires IsValidTimeHHMM(now) && IsValidTimeHHMM(start) && IsValidTimeHHMM(end)
    ensures IsInMaintenanceWindow(LocalHHMMToUtc(now, offset), LocalHHMMToUtc(start, offset),
                                  LocalHHMMToUtc(end, offset))
            <==> IsInMaintenanceWindow(now, start, end)
  {
    ConversionShifts(now, offset);
    ConversionShifts(start, offset);
    ConversionShifts(end, offset);
    ShiftedWindow(now, start, end,
                  LocalHHMMToUtc(now, offset), LocalHHMMToUtc(start, offset), LocalHHMMToUtc(end, offset), offset);
  }

  /** Displaying a stored time restores what the user picked, on every string, valid or not. */
  lemma LocalToUtcAndBack(local: string, offset: int)
    ensures UtcHHMMToLocal(LocalHHMMToUtc(local, offset), offset) == local
  {
    ConversionUndone(local, offset, -offset);
  }

  /** Saving a displayed time restores what was stored. */
  lemma UtcToLocalAndBack(utc: string, offset: int)
    ensures LocalHHMMToUtc(UtcHHMMToLocal(utc, offset), offset) == utc
  {
    ConversionUndone(utc, -offset, offset);
  }

  lemma ConversionUndone(time: string, there: int, back: int)
    requires there + back == 0
    ensures LocalHHMMToUtc(LocalHHMMToUtc(time, there), back) == time
  {
    if ParseHHMM(time).Some? {
      var utc := LocalHHMMToUtc(time, there);
      ConversionShifts(time, there);
      ConversionShifts(utc, back);
      ShiftedBack(time, utc, LocalHHMMToUtc(utc, back), there, back);
    }
  }

  lemma ShiftedBack(time: string, utc: string, local: string, there: int, back: int)
    requires there + back == 0
    requires Shifted(time, utc, there) && Shifted(utc, local, back)
    ensures local == time
  {
    ShiftTwice(Minutes(time), there);
    MinutesDetermine(local, time);
  }

  lemma ShiftTwice(m: nat, offset: int)
    requires m < DAY
    ensures ((m - offset) % DAY + offset) % DAY == m
  {
    var k := (m - offset) / DAY;
    assert (m - offset) % DAY + offset == m + DAY * -k;
    ModuloShift(m, -k);
  }

  // ----- How much of a day a window covers -----

  lemma ClockOfUnixTime(unixSeconds: int)
    requires -MAX_DATE_SECONDS <= unixSeconds <= MAX_DATE_SECONDS
    ensures IsValidTimeHHMM(ToUtcHHMM(unixSeconds))
    ensures Minutes(ToUtcHHMM(unixSeconds)) == unixSeconds / 60 % DAY
  {
    var m := unixSeconds / 60;
    assert unixSeconds / 3600 == m / 60;
    var h := m / 60;
    assert m % DAY == h % 24 * 60 + m % 60;
    FormatIsValid(h % 24, m % 60);
  }

  // How many of 0, 1, ..., n - 1 are inside.
  function HowMany(n: nat, inside: int -> bool): nat {
    if n == 0 then 0 else HowMany(n - 1, inside) + (if inside(n - 1) then 1 else 0)
  }

  // Whether an instant is inside the window.
  function InsideAtTime(start: string, end: string): int -> bool {
    t => IsInMaintenanceWindow(ToUtcHHMM(t), start, end)
  }

  // The same of the `i`-th whole minute after `from`.
  function EveryMinute(from: int, inside: int -> bool): int -> bool {
    i => inside(from + 60 * i)
  }

  // How many of the `n` whole minutes from `from` on are inside the window.
  function MinutesInside(from: int, n: nat, start: string, end: string): nat {
    HowMany(n, EveryMinute(from, InsideAtTime(start, end)))
  }

  // The size of the window on the circle.
  function Size(start: string, end: string): (w: nat)
    requires IsValidTimeHHMM(start) && IsValidTimeHHMM(end)
    ensures w <= DAY
  {
    if start == end then DAY else Ahead(Minutes(start), Minutes(end))
  }

  lemma InsideAt(t: int, start: string, end: string)
    requires IsValidTimeHHMM(start) && IsValidTimeHHMM(end)
    requires -MAX_DATE_SECONDS <= t <= MAX_DATE_SECONDS
    ensures IsInMaintenanceWindow(ToUtcHHMM(t), start, end) <==> (t / 60 - Minutes(start)) % DAY < Size(start, end)
  {
    var now := ToUtcHHMM(t);
    ClockOfUnixTime(t);
    ClockInside(t / 60, now, start, end);
  }

  lemma ClockInside(m: int, now: string, start: string, end: string)
    requires IsValidTimeHHMM(now) && IsValidTimeHHMM(start) && IsValidTimeHHMM(end) && Minutes(now) == m % DAY
    ensures IsInMaintenanceWindow(now, start, end) <==> (m - Minutes(start)) % DAY < Size(start, end)
  {
    WindowIsCircular(now, start, end);
    assert m % DAY - Minutes(start) == m - Minutes(start) + DAY * -(m / DAY);
    ModuloShift(m - Minutes(start), -(m / DAY));
    AheadInMinutes(Minutes(start), Minutes(end));
    MinutesDetermine(start, end);
  }

  function Min(a: nat, b: nat): nat { if a <= b then a else b }

  // How many of the `n` minutes from minute `m` of the day on lie in [0, w), around midnight if need be.
  function Arc(m: nat, n: nat, w: nat): int {
    if m + n <= DAY then Min(w, m + n) - Min(w, m) else w - Min(w, m) + Min(w, m + n - DAY)
  }

  lemma ArcStep(m: nat, n: nat, w: nat)
    requires m < DAY && n < DAY && w <= DAY
    ensures Arc(m, n + 1, w) == Arc(m, n, w) + (if (m + n) % DAY < w then 1 else 0)
  {
    assert (m + n) % DAY == if m + n < DAY then m + n else m + n - DAY;
  }

  // The instant is inside exactly when its minute is fewer than `w` minutes after minute `s`.
  ghost predicate OnArc(inside: int -> bool, s: int, w: nat, t: int) {
    inside(t) <==> (t / 60 - s) % DAY < w
  }

  lemma {:induction false} HowManyOnArc(from: int, n: nat, inside: int -> bool, s: int, w: nat)
    requires n <= DAY && w <= DAY
    requires forall t :: from <= t < from + 60 * n ==> OnArc(inside, s, w, t)
    ensures HowMany(n, EveryMinute(from, inside)) == Arc((from / 60 - s) % DAY, n, w)
  {
    if n > 0 {
      HowManyOnArc(from, n - 1, inside, s, w);
      ArcStep((from / 60 - s) % DAY, n - 1, w);
      MinuteOnArc(from, n - 1, inside, s, w);
    }
  }

  lemma MinuteOnArc(from: int, i: nat, inside: int -> bool, s: int, w: nat)
    requires OnArc(inside, s, w, from + 60 * i)
    ensures EveryMinute(from, inside)(i) <==> ((from / 60 - s) % DAY + i) % DAY < w
  {
    var a := from / 60 - s;
    assert (from + 60 * i) / 60 - s == a + i == a % DAY + i + DAY * (a / DAY);
    ModuloShift(a % DAY + i, a / DAY);
  }

  lemma HowManyInADay(from: int, inside: int -> bool, s: int, w: nat)
    requires w <= DAY && forall t :: from <= t < from + 60 * DAY ==> OnArc(inside, s, w, t)
    ensures HowMany(DAY, EveryMinute(from, inside)) == w
  {
    HowManyOnArc(from, DAY, inside, s, w);
  }

  lemma InsideAtTimes(from: int, start: string, end: string)
    requires IsValidTimeHHMM(start) && IsValidTimeHHMM(end)
    requires -MAX_DATE_SECONDS <= from && from + 60 * DAY <= MAX_DATE_SECONDS
    ensures forall t :: from <= t < from + 60 * DAY ==>
              OnArc(InsideAtTime(start, end), Minutes(start), Size(start, end), t)
  {
    forall t | from <= t < from + 60 * DAY
      ensures OnArc(InsideAtTime(start, end), Minutes(start), Size(start, end), t)
    {
      InsideAt(t, start, end);
    }
  }

  /**
   Over any 1440 consecutive minutes of Unix time a window covers exactly
   `(end - start) mod 1440` of them, or all of them when start and end agree.
   */
  lemma WindowSizeIsExact(from: int, start: string, end: string)
    requires IsValidTimeHHMM(start) && IsValidTimeHHMM(end)
    requires -MAX_DATE_SECONDS <= from && from + 60 * DAY <= MAX_DATE_SECONDS
    ensures MinutesInside(from, DAY, start, end)
            == if start == end then DAY else (Minutes(end) - Minutes(start)) % DAY
  {
    InsideAtTimes(from, start, end);
    HowManyInADay(from, InsideAtTime(start, end), Minutes(start), Size(start, end));
  }
}
