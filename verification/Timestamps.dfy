/** Rebuilding a full timestamp from a ten-minute section of the day and a fraction of it. */
module Timestamps {
  import opened HnzTypes

  const SECTION_MS: nat := 600000
  const TWO_64: nat := 0x1_0000_0000_0000_0000

  function SectionOf(t: nat): nat {
    t % DAY_MS / SECTION_MS
  }

  function FractionOf(t: nat): nat {
    t % SECTION_MS / 10
  }

  /** getEpochMsTimestamp, in the 64-bit unsigned arithmetic of the code. `clock` is the local time in
      milliseconds since the epoch. */
  function EpochMs(clock: nat, section: Byte, ts: nat): nat {
    var today := clock - clock % DAY_MS;
    var hours := clock % DAY_MS / HOUR_MS % 24;
    var later := if section == 0 && hours == 23 then (today + DAY_MS) % TWO_64 else today;
    var day := if section == 143 && hours == 0 then (later - DAY_MS) % TWO_64 else later;
    (day + section * SECTION_MS + ts * 10) % TWO_64
  }

  /** Days the code moves the date of the local clock by. */
  function DayShift(clock: nat, section: nat): int {
    var hours := clock % DAY_MS / HOUR_MS;
    if section == 0 && hours == 23 then 1 else if section == 143 && hours == 0 then -1 else 0
  }

  lemma SplitTime(t: nat)
    requires t % 10 == 0
    ensures t == t / DAY_MS * DAY_MS + SectionOf(t) * SECTION_MS + FractionOf(t) * 10
    ensures SectionOf(t) <= 143 && FractionOf(t) < 60000
  {
    var q, a, b := t / DAY_MS, SectionOf(t), t % DAY_MS % SECTION_MS;
    assert t == q * DAY_MS + a * SECTION_MS + b;
    RestOfSection(t, q * 144 + a, b);
  }

  lemma RestOfSection(t: nat, k: nat, b: nat)
    requires t == k * SECTION_MS + b && b < SECTION_MS && t % 10 == 0
    ensures t % SECTION_MS == b && b / 10 * 10 == b
  {
    assert t == 10 * (60000 * k) + b;
  }

  /** What the function returns, up to the wrap when the day before the epoch is asked for. */
  lemma EpochMsIs(clock: nat, section: Byte, ts: nat)
    requires clock + DAY_MS + section * SECTION_MS + ts * 10 < TWO_64 && ts < 60000
    ensures var day := clock / DAY_MS + DayShift(clock, section);
            EpochMs(clock, section, ts)
            == if day >= 0 then day * DAY_MS + section * SECTION_MS + ts * 10
               else TWO_64 - DAY_MS + section * SECTION_MS + ts * 10
  {
    var hours := clock % DAY_MS / HOUR_MS;
    assert hours < 24;
    assert clock - clock % DAY_MS == clock / DAY_MS * DAY_MS;
  }

  /** The exact condition: the time is rebuilt if and only if the shift is the real distance in days. */
  lemma RebuiltIffDayIsRight(t: nat, clock: nat)
    requires t % 10 == 0 && t < TWO_64 - 2 * DAY_MS && clock < TWO_64 - 2 * DAY_MS
    ensures EpochMs(clock, SectionOf(t), FractionOf(t)) == t
            <==> t / DAY_MS - clock / DAY_MS == DayShift(clock, SectionOf(t))
  {
    SplitTime(t);
    EpochMsIs(clock, SectionOf(t), FractionOf(t));
    var day := clock / DAY_MS + DayShift(clock, SectionOf(t));
    assert day != t / DAY_MS ==> day * DAY_MS != t / DAY_MS * DAY_MS;
  }

  predicate Within(t: nat, clock: nat, skew: nat) {
    clock <= t + skew && t <= clock + skew
  }

  /** Main result: a clock at most ten minutes off rebuilds the time exactly, across midnight in both
      directions. */
  lemma TenMinutesAreEnough(t: nat, clock: nat)
    requires t % 10 == 0 && t < TWO_64 - 2 * DAY_MS && clock < TWO_64 - 2 * DAY_MS
    requires Within(t, clock, SECTION_MS)
    ensures EpochMs(clock, SectionOf(t), FractionOf(t)) == t
  {
    RebuiltIffDayIsRight(t, clock);
    var dt, dc := t / DAY_MS, clock / DAY_MS;
    var rt, rc := t % DAY_MS, clock % DAY_MS;
    assert t == dt * DAY_MS + rt && clock == dc * DAY_MS + rc;
    DaysApart(dt, dc, rt, rc);
  }

  /** Readings at most ten minutes apart: their distance in days follows from the section of one and the
      hour of the other. */
  lemma DaysApart(dt: int, dc: int, rt: nat, rc: nat)
    requires rt < DAY_MS && rc < DAY_MS
    requires dc * DAY_MS + rc <= dt * DAY_MS + rt + SECTION_MS
    requires dt * DAY_MS + rt <= dc * DAY_MS + rc + SECTION_MS
    ensures dt - dc == (if rt / SECTION_MS == 0 && rc / HOUR_MS == 23 then 1
                        else if rt / SECTION_MS == 143 && rc / HOUR_MS == 0 then -1 else 0)
  {
    assert -1 <= dt - dc <= 1;
  }

  /** Ten minutes is also the limit: one millisecond more and some time is rebuilt a day early. */
  lemma TenMinutesAreTheLimit(skew: nat)
    ensures (forall t: nat, clock: nat |
               t % 10 == 0 && t < TWO_64 - 2 * DAY_MS && clock < TWO_64 - 2 * DAY_MS && Within(t, clock, skew) ::
               EpochMs(clock, SectionOf(t), FractionOf(t)) == t)
            <==> skew <= SECTION_MS
  {
    if skew <= SECTION_MS {
      forall t: nat, clock: nat |
        t % 10 == 0 && t < TWO_64 - 2 * DAY_MS && clock < TWO_64 - 2 * DAY_MS && Within(t, clock, skew)
        ensures EpochMs(clock, SectionOf(t), FractionOf(t)) == t
      {
        TenMinutesAreEnough(t, clock);
      }
    } else {
      var t, clock := DAY_MS + SECTION_MS, DAY_MS - 1;
      RebuiltIffDayIsRight(t, clock);
      assert Within(t, clock, skew) && SectionOf(t) == 1 && t / DAY_MS == 1 && clock / DAY_MS == 0;
      assert EpochMs(clock, SectionOf(t), FractionOf(t)) != t;
    }
  }

  /** The two bytes of a fraction, as in the time setting message and in a TSCE. */
  lemma FractionBytes(t: nat)
    ensures FractionOf(t) / 256 < 256
    ensures FractionOf(t) / 256 * 256 + FractionOf(t) % 256 == FractionOf(t)
  {
  }

  // ---------------------------------------------------------------- timestamp of a TSCE

  /** Difference between the seconds of the day in local time and in UTC, as m_handleTSCE takes it:
      the day itself is not compared. `offset` is the offset of local time in seconds. */
  function OffsetSeconds(clock: nat, offset: int): int {
    (clock / 1000 + offset) % 86400 - clock / 1000 % 86400
  }

  /** The timestamp given to a TSCE; the section and the fraction are in local time. */
  function TsceTimestamp(clock: nat, offset: int, section: Byte, high: Byte, low: Byte): nat {
    (EpochMs(clock, section, high * 256 + low) - OffsetSeconds(clock, offset) * 1000) % TWO_64
  }

  function LocalDay(clock: nat, offset: int): int {
    (clock + offset * 1000) / DAY_MS
  }

  /** The offset comes out right up to the days that local time and UTC are apart. */
  lemma OffsetWraps(clock: nat, offset: int)
    ensures OffsetSeconds(clock, offset) == offset - (LocalDay(clock, offset) - clock / DAY_MS) * 86400
  {
    var sec := clock / 1000;
    assert clock == sec * 1000 + clock % 1000;
    assert sec / 86400 == clock / DAY_MS;
    var x := sec + offset;
    assert x == x / 86400 * 86400 + x % 86400;
    assert clock + offset * 1000 == x / 86400 * DAY_MS + (x % 86400 * 1000 + clock % 1000);
    QuotientIs(clock + offset * 1000, x / 86400, x % 86400 * 1000 + clock % 1000);
  }

  lemma QuotientIs(n: int, q: int, r: nat)
    requires n == q * DAY_MS + r && r < DAY_MS
    ensures n / DAY_MS == q
  {
  }

  predicate InRange(t: nat) {
    t % 10 == 0 && t < TWO_64 - 4 * DAY_MS
  }

  /** Main result, for any clock, any offset and any section the plugin holds: a TSCE of true time t is stamped t
      if and only if that section, in the local day of the clock shifted as the code does, is the ten minutes of
      t. The shift looks at the hour in UTC. */
  lemma TsceStampIff(t: nat, local: nat, clock: nat, offset: int, section: Byte)
    requires InRange(t) && clock < TWO_64 - 4 * DAY_MS && -86400 < offset < 86400
    requires local == t + offset * 1000
    ensures var f := FractionOf(local);
            TsceTimestamp(clock, offset, section, f / 256, f % 256) == t
            <==> (LocalDay(clock, offset) + DayShift(clock, section)) * 144 + section == local / SECTION_MS
  {
    StillMultipleOfTen(t, offset);
    SplitTime(local);
    FractionBytes(local);
    var f := FractionOf(local);
    TsceStampIs(clock, offset, section, f);
    TenMinutesOf(local);
    StampMatches(t, local / SECTION_MS, (LocalDay(clock, offset) + DayShift(clock, section)) * 144 + section, offset, f * 10);
  }

  lemma TenMinutesOf(local: nat)
    requires local % 10 == 0
    ensures local == local / SECTION_MS * SECTION_MS + FractionOf(local) * 10
    ensures local / SECTION_MS == local / DAY_MS * 144 + SectionOf(local)
  {
    SplitTime(local);
  }

  /** The stamp, counted in ten minutes. */
  lemma TsceStampIs(clock: nat, offset: int, section: Byte, f: nat)
    requires clock < TWO_64 - 4 * DAY_MS && -86400 < offset < 86400 && f < 60000
    ensures var count := (LocalDay(clock, offset) + DayShift(clock, section)) * 144 + section;
            && TsceTimestamp(clock, offset, section, f / 256, f % 256)
               == (count * SECTION_MS + f * 10 - offset * 1000) % TWO_64
            && -432 <= count && count * SECTION_MS < TWO_64
  {
    var days := clock / DAY_MS + DayShift(clock, section);
    var apart := LocalDay(clock, offset) - clock / DAY_MS;
    assert f / 256 * 256 + f % 256 == f;
    EpochMsIs(clock, section, f);
    OffsetWraps(clock, offset);
    StampIs(days, apart, offset, section * SECTION_MS + f * 10, EpochMs(clock, section, f));
    assert -2 <= apart <= 2;
    assert ((days + apart) * 144 + section) * SECTION_MS == (days + apart) * DAY_MS + section * SECTION_MS;
  }

  /** The same with the section of the event itself: only the day can be wrong. */
  lemma TsceStampedIff(t: nat, local: nat, clock: nat, offset: int)
    requires InRange(t) && clock < TWO_64 - 4 * DAY_MS && -86400 < offset < 86400
    requires local == t + offset * 1000
    ensures SectionOf(local) <= 143
    ensures var f := FractionOf(local);
            TsceTimestamp(clock, offset, SectionOf(local), f / 256, f % 256) == t
            <==> local / DAY_MS - LocalDay(clock, offset) == DayShift(clock, SectionOf(local))
  {
    StillMultipleOfTen(t, offset);
    SplitTime(local);
    TenMinutesOf(local);
    TsceStampIff(t, local, clock, offset, SectionOf(local));
  }

  lemma StillMultipleOfTen(t: int, offset: int)
    requires t % 10 == 0
    ensures (t + offset * 1000) % 10 == 0
  {
    assert t + offset * 1000 == 10 * (t / 10 + offset * 100);
  }

  lemma StampIs(days: int, apart: int, offset: int, r: nat, epoch: nat)
    requires days >= -1 && epoch == if days >= 0 then days * DAY_MS + r else TWO_64 - DAY_MS + r
    ensures (epoch - (offset - apart * 86400) * 1000) % TWO_64
            == ((days + apart) * DAY_MS + r - offset * 1000) % TWO_64
  {
    var x := (days + apart) * DAY_MS + r - offset * 1000;
    assert apart * 86400 * 1000 == apart * DAY_MS;
    if days < 0 {
      assert epoch - (offset - apart * 86400) * 1000 == x + TWO_64;
    } else {
      assert epoch - (offset - apart * 86400) * 1000 == x;
    }
  }

  lemma StampMatches(t: nat, count: nat, stamped: int, offset: int, rest: nat)
    requires t < TWO_64 - 4 * DAY_MS && rest < SECTION_MS && -86400 < offset < 86400
    requires t == count * SECTION_MS + rest - offset * 1000
    requires -432 <= stamped && stamped * SECTION_MS < TWO_64
    ensures (stamped * SECTION_MS + rest - offset * 1000) % TWO_64 == t <==> stamped == count
  {
    var x := stamped * SECTION_MS + rest - offset * 1000;
    assert -4 * DAY_MS - DAY_MS < x < TWO_64 + 2 * DAY_MS;
    assert t - x == (count - stamped) * SECTION_MS;
  }

  function UtcHour(clock: nat): nat {
    clock % DAY_MS / HOUR_MS
  }

  function LocalHour(clock: nat, offset: int): nat {
    (clock + offset * 1000) % DAY_MS / HOUR_MS
  }

  /** The shift is decided by the hour in UTC; the hour in local time says the same. */
  predicate HoursAgree(clock: nat, offset: int, section: nat) {
    && (section == 0 ==> (UtcHour(clock) == 23 <==> LocalHour(clock, offset) == 23))
    && (section == 143 ==> (UtcHour(clock) == 0 <==> LocalHour(clock, offset) == 0))
  }

  /** Main result. With a clock at most ten minutes off, and the section the plugin holds being that of the event, a
      TSCE in local time is stamped with its true time if and only if, in the first and the last section of the local
      day, UTC and local time agree on being in the last or in the first hour. */
  lemma TsceExactIff(t: nat, local: nat, clock: nat, offset: int)
    requires InRange(t) && clock < TWO_64 - 4 * DAY_MS && -86400 < offset < 86400
    requires local == t + offset * 1000 && Within(t, clock, SECTION_MS)
    ensures SectionOf(local) <= 143
    ensures var f := FractionOf(local);
            TsceTimestamp(clock, offset, SectionOf(local), f / 256, f % 256) == t
            <==> HoursAgree(clock, offset, SectionOf(local))
  {
    TsceStampedIff(t, local, clock, offset);
    var c := clock + offset * 1000;
    assert local == local / DAY_MS * DAY_MS + local % DAY_MS && c == c / DAY_MS * DAY_MS + c % DAY_MS;
    DaysApart(local / DAY_MS, c / DAY_MS, local % DAY_MS, c % DAY_MS);
  }

  /** Then, outside the hours next to midnight, in UTC and in local time, no stamp is off. */
  lemma FarFromMidnightIsExact(t: nat, local: nat, clock: nat, offset: int)
    requires InRange(t) && clock < TWO_64 - 4 * DAY_MS && -86400 < offset < 86400
    requires local == t + offset * 1000 && Within(t, clock, SECTION_MS)
    requires 1 <= UtcHour(clock) <= 22 && 1 <= LocalHour(clock, offset) <= 22
    ensures SectionOf(local) <= 143
    ensures var f := FractionOf(local); TsceTimestamp(clock, offset, SectionOf(local), f / 256, f % 256) == t
  {
    TsceExactIff(t, local, clock, offset);
  }

  /** With the station in UTC and a clock at most ten minutes off, a TSCE is stamped with its true time if the
      section the plugin holds is that of the event, and only then if it is a section of the day. */
  lemma TsceInUtc(t: nat, clock: nat, section: Byte)
    requires InRange(t) && clock < TWO_64 - 4 * DAY_MS && Within(t, clock, SECTION_MS) && section <= 143
    ensures var f := FractionOf(t);
            TsceTimestamp(clock, 0, section, f / 256, f % 256) == t <==> section == SectionOf(t)
  {
    TsceStampIff(t, t, clock, 0, section);
    TenMinutesOf(t);
    if section == SectionOf(t) {
      TsceStampedIff(t, t, clock, 0);
      TenMinutesAreEnough(t, clock);
      RebuiltIffDayIsRight(t, clock);
    }
  }

  /** In local time it does not: at UTC+1, at five past eleven in the evening UTC, a TSCE of that very
      moment is not stamped with its time. */
  lemma LocalTimeIsADayOff()
    ensures var t := 23 * HOUR_MS + 300000;
            var f := FractionOf(t + HOUR_MS);
            SectionOf(t + HOUR_MS) == 0 && TsceTimestamp(t, 3600, 0, f / 256, f % 256) == t + DAY_MS
  {
    var t := 23 * HOUR_MS + 300000;
    var f := FractionOf(t + HOUR_MS);
    assert f == 30000 && EpochMs(t, 0, f) == DAY_MS + 300000;
    assert OffsetSeconds(t, 3600) == 300 - 83100;
  }
}
