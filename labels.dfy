/**
 * The presentational derivations of App.tsx: the countdown shown on every
 * listing card, the "how long ago" text and the status badge. All times are
 * integer milliseconds; the current time is a parameter.
 */
module Labels {
  import opened Wrappers
  import opened Text
  import opened Listings

  const SecondMs := 1000
  const MinuteMs := 60000
  const HourMs := 3600000
  const DayMs := 86400000

  // ---------------------------------------------------------------------------
  // Countdown

  /** Remaining time split into whole days, hours, minutes and seconds. */
  datatype Remaining = Remaining(days: nat, hours: nat, minutes: nat, seconds: nat)

  /**
   * The four fields of one countdown tick. The source divides floats and
   * floors; for a positive integer `total` that equals integer division.
   */
  function Split(total: nat): (r: Remaining)
    ensures r.hours < 24 && r.minutes < 60 && r.seconds < 60
    ensures r.days == 0 <==> total < DayMs
  {
    Remaining(total / DayMs, (total / HourMs) % 24, (total / MinuteMs) % 60, (total / SecondMs) % 60)
  }

  /** The fields recombine to the remaining time, truncated to whole seconds. */
  lemma SplitRecombines(total: nat)
    ensures var r := Split(total);
      ((r.days * 24 + r.hours) * 60 + r.minutes) * 60 + r.seconds == total / SecondMs
  {
    var sec := total / SecondMs;
    var min := sec / 60;
    var hour := min / 60;
    assert total / MinuteMs == min;
    assert total / HourMs == hour;
    assert total / DayMs == hour / 24;
    assert hour == (hour / 24) * 24 + hour % 24;
    assert min == hour * 60 + min % 60;
    assert sec == min * 60 + sec % 60;
  }

  const SoldLabel := "판매 완료"
  const ClosedLabel := "마감됨"

  /** `${d}일 ${h}시간`: shown while at least a day remains. */
  function DayLabel(d: nat, h: nat): string {
    NatToString(d) + "일 " + NatToString(h) + "시간"
  }

  /** `${h}:${MM}:${SS}`: shown in the last day. */
  function ClockLabel(h: nat, m: nat, s: nat): string {
    NatToString(h) + ":" + Pad2(m) + ":" + Pad2(s)
  }

  /** What the countdown badge shows: its text and whether it is styled urgent. */
  datatype Timer = Timer(text: string, urgent: bool)

  /**
   * One evaluation of the countdown effect for a listing with status `status`
   * and `total` milliseconds left. `previous` is the badge state so far: the
   * source only assigns the urgent flag on a tick with time remaining, so a
   * sold or expired listing keeps whatever flag it had.
   */
  function Countdown(status: Status, total: int, previous: Timer): (t: Timer)
    ensures status == Sold ==> t == Timer(SoldLabel, previous.urgent)
    ensures status == Active && total <= 0 ==> t == Timer(ClosedLabel, previous.urgent)
    ensures status == Active && total > 0 ==> t.urgent == (total < HourMs)
  {
    if status == Sold then Timer(SoldLabel, previous.urgent)
    else if total <= 0 then Timer(ClosedLabel, previous.urgent)
    else
      var r := Split(total);
      Timer(if r.days > 0 then DayLabel(r.days, r.hours) else ClockLabel(r.hours, r.minutes, r.seconds),
            total < HourMs)
  }

  /** Reads a `${d}일 ${h}시간` label back into its two numbers. */
  function DecodeDayLabel(s: string): Option<(nat, nat)> {
    var i := IndexOf(s, '일');
    if i + 2 <= |s| - 2 && s[i..i + 2] == "일 " && s[|s| - 2..] == "시간"
       && AllDigits(s[..i]) && AllDigits(s[i + 2..|s| - 2])
    then Some((ParseDigits(s[..i]), ParseDigits(s[i + 2..|s| - 2])))
    else None
  }

  /** Reads a `${h}:${MM}:${SS}` label back into its three numbers. */
  function DecodeClockLabel(s: string): Option<(nat, nat, nat)> {
    var n := |s|;
    if n >= 7 && s[n - 6] == ':' && s[n - 3] == ':'
       && AllDigits(s[..n - 6]) && AllDigits(s[n - 5..n - 3]) && AllDigits(s[n - 2..])
    then Some((ParseDigits(s[..n - 6]), ParseDigits(s[n - 5..n - 3]), ParseDigits(s[n - 2..])))
    else None
  }

  lemma {:induction false} DayLabelDecodes(d: nat, h: nat)
    ensures DecodeDayLabel(DayLabel(d, h)) == Some((d, h))
    ensures '일' in DayLabel(d, h)
  {
    var a, b := NatToString(d), NatToString(h);
    var text := DayLabel(d, h);
    assert text == a + "일 " + b + "시간";
    assert text[|a|] == '일';
    var i := IndexOf(text, '일');
    assert forall j :: 0 <= j < |a| ==> text[j] == a[j];
    assert i == |a|;
    assert text[..i] == a;
    assert text[i..i + 2] == "일 ";
    assert text[i + 2..|text| - 2] == b;
    assert text[|text| - 2..] == "시간";
    ParseNatToString(d);
    ParseNatToString(h);
  }

  lemma {:induction false} ClockLabelDecodes(h: nat, m: nat, s: nat)
    requires m < 60 && s < 60
    ensures DecodeClockLabel(ClockLabel(h, m, s)) == Some((h, m, s))
    ensures '일' !in ClockLabel(h, m, s)
  {
    var a, b, c := NatToString(h), Pad2(m), Pad2(s);
    Pad2RoundTrip(m);
    Pad2RoundTrip(s);
    var text := ClockLabel(h, m, s);
    assert text == a + ":" + b + ":" + c;
    var n := |text|;
    assert n == |a| + 6;
    assert text[..n - 6] == a;
    assert text[n - 5..n - 3] == b;
    assert text[n - 2..] == c;
    ParseNatToString(h);
    assert '일' !in a && '일' !in b && '일' !in c by {
      assert !IsDigit('일');
    }
  }

  /**
   * While time remains, the label is the day form exactly when a whole day is
   * left, and either form decodes to the time left: whole days and hours in the
   * day form, hours, minutes and seconds (to the second) in the clock form.
   */
  lemma CountdownLabelShowsTimeLeft(total: int, previous: Timer)
    requires total > 0
    ensures var t := Countdown(Active, total, previous);
      && ('일' in t.text <==> total >= DayMs)
      && (total >= DayMs ==>
            exists d: nat, h: nat :: DecodeDayLabel(t.text) == Some((d, h)) && h < 24
                                     && d * 24 + h == total / HourMs && d == total / DayMs)
      && (total < DayMs ==>
            exists h: nat, m: nat, s: nat :: DecodeClockLabel(t.text) == Some((h, m, s))
                                             && m < 60 && s < 60 && (h * 60 + m) * 60 + s == total / SecondMs)
  {
    var r := Split(total);
    SplitRecombines(total);
    if r.days > 0 {
      DayLabelDecodes(r.days, r.hours);
      assert total / HourMs == r.days * 24 + r.hours;
    } else {
      ClockLabelDecodes(r.hours, r.minutes, r.seconds);
    }
  }

  /** An urgent countdown (under an hour) always shows zero hours. */
  lemma UrgentShowsZeroHours(total: int, previous: Timer)
    requires total > 0
    requires Countdown(Active, total, previous).urgent
    ensures DecodeClockLabel(Countdown(Active, total, previous).text) == Some((0, total / MinuteMs, total / SecondMs % 60))
  {
    var r := Split(total);
    assert total < HourMs;
    assert r == Remaining(0, 0, total / MinuteMs, total / SecondMs % 60);
    ClockLabelDecodes(r.hours, r.minutes, r.seconds);
  }

  // ---------------------------------------------------------------------------
  // Time ago

  /** The bucket `formatTimeAgo` puts an elapsed time into. */
  datatype Ago = JustNow | MinutesAgo(count: nat) | HoursAgo(count: nat) | DaysAgo(count: nat)

  /**
   * Buckets `elapsed = now - created_at`. `Math.floor` of a division by a
   * positive constant is Dafny's `/`, also for a negative difference (clock skew).
   */
  function TimeAgo(elapsed: int): (a: Ago)
    ensures a == JustNow <==> elapsed < MinuteMs
    ensures a.MinutesAgo? ==> 1 <= a.count < 60
    ensures a.HoursAgo? ==> 1 <= a.count < 24
    ensures a.DaysAgo? ==> 1 <= a.count
  {
    var mins := elapsed / MinuteMs;
    if mins < 1 then JustNow
    else if mins < 60 then MinutesAgo(mins)
    else
      var hours := mins / 60;
      if hours < 24 then HoursAgo(hours) else DaysAgo(hours / 24)
  }

  /** The unit a bucket counts in, in milliseconds. */
  function UnitMs(a: Ago): nat {
    match a
    case JustNow => MinuteMs
    case MinutesAgo(_) => MinuteMs
    case HoursAgo(_) => HourMs
    case DaysAgo(_) => DayMs
  }

  /**
   * Each bucket counts whole units of elapsed time: the count is the elapsed
   * time truncated to its unit, and the bucket is the largest unit that fits.
   */
  lemma TimeAgoCountsWholeUnits(elapsed: int)
    ensures var a := TimeAgo(elapsed);
      a != JustNow ==> a.count * UnitMs(a) <= elapsed < (a.count + 1) * UnitMs(a)
    ensures TimeAgo(elapsed).MinutesAgo? <==> MinuteMs <= elapsed < HourMs
    ensures TimeAgo(elapsed).HoursAgo? <==> HourMs <= elapsed < DayMs
    ensures TimeAgo(elapsed).DaysAgo? <==> DayMs <= elapsed
  {
    var mins := elapsed / MinuteMs;
    var hours := mins / 60;
    assert elapsed / HourMs == hours;
    assert elapsed / DayMs == hours / 24;
  }

  /** The displayed text of each bucket. */
  function AgoLabel(a: Ago): string {
    match a
    case JustNow => "방금 전"
    case MinutesAgo(n) => NatToString(n) + "분 전"
    case HoursAgo(n) => NatToString(n) + "시간 전"
    case DaysAgo(n) => NatToString(n) + "일 전"
  }

  /** Reads a time-ago text back into its bucket. */
  function DecodeAgoLabel(s: string): Option<Ago> {
    var n := |s|;
    if s == "방금 전" then Some(JustNow)
    else if n > 4 && s[n - 4..] == "시간 전" && AllDigits(s[..n - 4]) then Some(HoursAgo(ParseDigits(s[..n - 4])))
    else if n > 3 && s[n - 3..] == "분 전" && AllDigits(s[..n - 3]) then Some(MinutesAgo(ParseDigits(s[..n - 3])))
    else if n > 3 && s[n - 3..] == "일 전" && AllDigits(s[..n - 3]) then Some(DaysAgo(ParseDigits(s[..n - 3])))
    else None
  }

  /** Each bucket's text reads back as that bucket: no two buckets or counts share a text. */
  lemma AgoLabelDecodes(a: Ago)
    ensures DecodeAgoLabel(AgoLabel(a)) == Some(a)
  {
    if !a.JustNow? {
      var d := NatToString(a.count);
      var s := AgoLabel(a);
      var n := |s|;
      ParseNatToString(a.count);
      assert s[0] == d[0] && IsDigit(d[0]);
      match a
      case MinutesAgo(_) =>
        assert s[n - 3] == '분';
        assert s[..n - 3] == d;
      case HoursAgo(_) =>
        assert s[n - 4..] == "시간 전";
        assert s[..n - 4] == d;
      case DaysAgo(_) =>
        assert s[n - 3] == '일';
        assert s[..n - 3] == d;
    }
  }

  /** `formatTimeAgo(created_at)` evaluated at time `now`. */
  function FormatTimeAgo(createdAt: int, now: int): string {
    AgoLabel(TimeAgo(now - createdAt))
  }

  /**
   * The text shows the bucket of the elapsed time: "방금 전" exactly under a
   * minute, otherwise the whole number of the largest unit that fits.
   */
  lemma FormatTimeAgoShows(createdAt: int, now: int)
    ensures DecodeAgoLabel(FormatTimeAgo(createdAt, now)) == Some(TimeAgo(now - createdAt))
    ensures FormatTimeAgo(createdAt, now) == "방금 전" <==> now - createdAt < MinuteMs
  {
    AgoLabelDecodes(TimeAgo(now - createdAt));
  }

  // ---------------------------------------------------------------------------
  // Status badge

  datatype Badge = TradeDone | Bidding | OnSale

  /** The badge of a listing: sold, or active with bids above the start price, or active without. */
  function BadgeOf(p: Listing): (b: Badge)
    ensures b == TradeDone <==> p.status == Sold
    ensures b == Bidding <==> p.status == Active && p.currentPrice > p.startPrice
    ensures b == OnSale <==> p.status == Active && p.currentPrice <= p.startPrice
  {
    match p.status
    case Sold => TradeDone
    case Active => if p.currentPrice > p.startPrice then Bidding else OnSale
  }

  /** The badge text. */
  function BadgeLabel(b: Badge): string {
    match b
    case TradeDone => "거래완료"
    case Bidding => "입찰중 🔥"
    case OnSale => "판매중"
  }

  /** Different badges have different texts, so the text tells the three states apart. */
  lemma BadgeLabelDistinct(b: Badge, c: Badge)
    requires BadgeLabel(b) == BadgeLabel(c)
    ensures b == c
  {
  }
}
