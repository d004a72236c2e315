/** The daily General Interrogation, for every sequence of clock readings: the first reading is the one at
    the start, each further one belongs to a turn of the supervisor. */
module GiSchedules {
  import opened HnzTypes
  import opened HnzSystem

  predicate ValidSchedule(sc: Schedule) {
    sc.active ==> sc.hour < 24 && sc.min < 60
  }

  /** The schedule part of one turn of m_check_GI: the new schedule, and whether the GI is due. */
  function Tick(sc: Schedule, g: GiSchedule, current: nat): (GiSchedule, bool) {
    var g1 := NewDay(sc, g, current);
    if SlotReached(sc, g1, current) then (g1.(alreadySent := true), true) else (g1, false)
  }

  /** It is the part that the turn of the supervisor goes through: a GI that is due goes to the active path;
      without one it is skipped, and only the schedule changes. */
  lemma TurnTicks(cfg: SysConf, s: Sys, current: nat, now: int)
    requires WellSized(cfg, s) && !CheckGiTimeout(cfg, s, current, now).crashed
    ensures var s1 := CheckGiTimeout(cfg, s, current, now);
            var (g, due) := Tick(cfg.schedule, s.sched, current);
            CheckGi(cfg, s, current, now)
            == (if due && s1.active.Some? then SendGeneralInterrogation(cfg, s1, s1.active.value, now) else s1)
               .(sched := g)
  {
    var s1 := CheckGiTimeout(cfg, s, current, now);
    CampaignKeepsSchedule(cfg, s, current, now);
    if s1.active.Some? {
      SendIgnoresSchedule(cfg, s1, s1.active.value, NewDay(cfg.schedule, s1.sched, current), now);
    }
  }

  lemma SendIgnoresSchedule(cfg: SysConf, s: Sys, i: nat, g: GiSchedule, now: int)
    requires WellSized(cfg, s) && i < |s.paths|
    ensures SendGeneralInterrogation(cfg, s, i, now).sched == s.sched
    ensures SendGeneralInterrogation(cfg, s.(sched := g), i, now) == SendGeneralInterrogation(cfg, s, i, now).(sched := g)
  {
  }

  lemma CampaignKeepsSchedule(cfg: SysConf, s: Sys, current: nat, now: int)
    requires WellSized(cfg, s)
    ensures CheckGiTimeout(cfg, s, current, now).sched == s.sched
  {
    if s.active.Some? {
      SendIgnoresSchedule(cfg, ForgetReceived(s), s.active.value, s.sched, now);
      SendIgnoresSchedule(cfg, CloseGi(cfg, s, false), s.active.value, s.sched, now);
    }
  }

  // ---------------------------------------------------------------- any clock

  predicate SameDay(a: nat, b: nat) {
    a / DAY_MS == b / DAY_MS
  }

  const MINUTE_MS: nat := 60000

  function HourOf(t: nat): nat {
    t % DAY_MS / HOUR_MS
  }

  function MinuteOf(t: nat): nat {
    t % HOUR_MS / MINUTE_MS
  }

  /** The slot is the configured time of the day of the reading. */
  lemma SlotIsTimeOfDay(sc: Schedule, t: nat)
    requires sc.hour < 24 && sc.min < 60
    ensures var slot := ScheduledTime(sc, t);
            SameDay(slot, t) && HourOf(slot) == sc.hour && MinuteOf(slot) == sc.min && slot % MINUTE_MS == 0
  {
    var day := t / DAY_MS;
    assert t - t % DAY_MS == day * DAY_MS;
    SplitSlot(day, sc.hour, sc.min);
  }

  lemma SplitSlot(day: nat, hour: nat, min: nat)
    requires hour < 24 && min < 60
    ensures var slot := day * DAY_MS + (hour * 60 + min) * 60000;
            slot / DAY_MS == day && HourOf(slot) == hour && MinuteOf(slot) == min && slot % MINUTE_MS == 0
  {
    var slot := day * DAY_MS + (hour * 60 + min) * 60000;
    assert slot % DAY_MS == hour * HOUR_MS + min * MINUTE_MS;
    assert slot == (day * 24 + hour) * HOUR_MS + min * MINUTE_MS;
    assert slot == (day * 1440 + hour * 60 + min) * MINUTE_MS;
  }

  /** A reading is past the slot if and only if its own time of the day is. */
  lemma PastSlotIff(sc: Schedule, t: nat)
    requires sc.hour < 24 && sc.min < 60
    ensures PastSlot(sc, t) <==> HourOf(t) > sc.hour || (HourOf(t) == sc.hour && MinuteOf(t) >= sc.min)
  {
    var hours, rest := t / HOUR_MS, t % HOUR_MS;
    assert t % DAY_MS == HourOf(t) * HOUR_MS + rest;
    assert rest == MinuteOf(t) * MINUTE_MS + rest % MINUTE_MS;
  }

  /** The reading is at or past the slot of its day. */
  predicate PastSlot(sc: Schedule, t: nat) {
    t >= ScheduledTime(sc, t)
  }

  function After(sc: Schedule, r: seq<nat>): GiSchedule
    requires r != []
  {
    if |r| == 1 then StartSchedule(sc, r[0]) else Tick(sc, After(sc, r[..|r| - 1]), r[|r| - 1]).0
  }

  /** The turn with reading k starts the daily GI, if there is an active path. */
  predicate Fires(sc: Schedule, r: seq<nat>, k: nat)
    requires 1 <= k < |r|
  {
    Tick(sc, After(sc, r[..k]), r[k]).1
  }

  /** The readings from j to n-1 are all of one day. */
  predicate OneDay(r: seq<nat>, j: nat, n: nat)
    requires j < n <= |r|
  {
    forall m | j <= m < n :: SameDay(r[m], r[n - 1])
  }

  /** A reading of the unbroken stretch of the last day was past the slot. */
  predicate UsedUp(sc: Schedule, r: seq<nat>)
    requires r != []
  {
    exists j | 0 <= j < |r| :: OneDay(r, j, |r|) && PastSlot(sc, r[j])
  }

  lemma OneSlotADay(sc: Schedule, a: nat, b: nat)
    requires SameDay(a, b)
    ensures ScheduledTime(sc, a) == ScheduledTime(sc, b)
  {
  }

  lemma UsedUpStep(sc: Schedule, r: seq<nat>)
    requires |r| >= 2
    ensures var init, last := r[..|r| - 1], r[|r| - 1];
            UsedUp(sc, r) <==> PastSlot(sc, last) || (SameDay(r[|r| - 2], last) && UsedUp(sc, init))
  {
    var init, last := r[..|r| - 1], r[|r| - 1];
    forall j | 0 <= j < |init|
      ensures OneDay(r, j, |r|) <==> OneDay(init, j, |init|) && SameDay(r[|r| - 2], last)
    {
      StretchGrows(r, j);
    }
    if PastSlot(sc, last) {
      assert OneDay(r, |r| - 1, |r|);
    }
  }

  lemma StretchGrows(r: seq<nat>, j: nat)
    requires j < |r| - 1
    ensures var init := r[..|r| - 1];
            OneDay(r, j, |r|) <==> OneDay(init, j, |init|) && SameDay(r[|r| - 2], r[|r| - 1])
  {
    var init := r[..|r| - 1];
    assert forall m | j <= m < |init| :: init[m] == r[m];
    if OneDay(r, j, |r|) {
      assert SameDay(r[|r| - 2], r[|r| - 1]);
      forall m | j <= m < |init| ensures SameDay(init[m], init[|init| - 1]) {
        assert SameDay(r[m], r[|r| - 1]);
      }
    }
    if OneDay(init, j, |init|) && SameDay(r[|r| - 2], r[|r| - 1]) {
      forall m | j <= m < |r| ensures SameDay(r[m], r[|r| - 1]) {
        assert m < |init| ==> SameDay(init[m], init[|init| - 1]);
      }
    }
  }

  /** The state after any readings, of a clock that may go back: the slot of the tracked day, used up
      exactly when the stretch of that day reached it. */
  lemma {:induction false} AfterTicks(sc: Schedule, r: seq<nat>)
    requires r != []
    ensures var g, last := After(sc, r), r[|r| - 1];
            && g.day == last / DAY_MS && g.time == ScheduledTime(sc, last)
            && (sc.active && ValidSchedule(sc) ==> g.day * DAY_MS <= g.time < (g.day + 1) * DAY_MS)
            && (g.alreadySent <==> sc.active && UsedUp(sc, r))
    decreases |r|
  {
    if |r| == 1 {
      assert PastSlot(sc, r[0]) ==> OneDay(r, 0, 1);
    } else {
      AfterTicks(sc, r[..|r| - 1]);
      UsedUpStep(sc, r);
      if SameDay(r[|r| - 2], r[|r| - 1]) {
        OneSlotADay(sc, r[|r| - 2], r[|r| - 1]);
      }
    }
  }

  /** Reading k is the first at or past the slot in the unbroken stretch of readings of its day. */
  predicate FirstPast(sc: Schedule, r: seq<nat>, k: nat)
    requires k < |r|
  {
    PastSlot(sc, r[k]) && !(exists j | 0 <= j < k :: OneDay(r, j, k + 1) && PastSlot(sc, r[j]))
  }

  /** Main result. A turn finds the daily GI due if and only if its reading is the first at or past the slot
      in the unbroken stretch of readings of its day. */
  lemma FiresExactly(sc: Schedule, r: seq<nat>, k: nat)
    requires 1 <= k < |r|
    ensures Fires(sc, r, k) <==> sc.active && FirstPast(sc, r, k)
  {
    var pre := r[..k];
    AfterTicks(sc, pre);
    if SameDay(r[k - 1], r[k]) {
      OneSlotADay(sc, r[k - 1], r[k]);
    }
    forall j | 0 <= j < k
      ensures OneDay(r, j, k + 1) <==> OneDay(pre, j, k) && SameDay(r[k - 1], r[k])
    {
      StretchGrows(r[..k + 1], j);
      assert r[..k + 1][..k] == pre;
      OneDayInPrefix(r, k + 1, j, k + 1);
    }
  }

  lemma OneDayInPrefix(r: seq<nat>, n: nat, j: nat, k: nat)
    requires j < k <= n <= |r|
    ensures OneDay(r[..n], j, k) <==> OneDay(r, j, k)
  {
    assert forall m | j <= m < k :: r[..n][m] == r[m];
  }

  lemma FiresInPrefix(sc: Schedule, r: seq<nat>, n: nat, k: nat)
    requires 1 <= k < n <= |r|
    ensures Fires(sc, r[..n], k) <==> Fires(sc, r, k)
  {
    assert r[..n][..k] == r[..k];
  }

  /** Two daily GIs of one day have a reading of another day between them. */
  lemma OncePerDay(sc: Schedule, r: seq<nat>, j: nat, k: nat)
    requires 1 <= j < k < |r| && Fires(sc, r, j) && Fires(sc, r, k) && SameDay(r[j], r[k])
    ensures exists m | j < m < k :: !SameDay(r[m], r[j])
  {
    FiresExactly(sc, r, j);
    FiresExactly(sc, r, k);
    if forall m | j < m < k :: SameDay(r[m], r[j]) {
      Unbroken(r, j, k);
    }
  }

  lemma Unbroken(r: seq<nat>, j: nat, k: nat)
    requires j < k < |r| && SameDay(r[j], r[k]) && forall m | j < m < k :: SameDay(r[m], r[j])
    ensures OneDay(r, j, k + 1)
  {
  }

  /** Every stretch that reaches the slot has its daily GI, unless the start of the program already was
      past the slot in that stretch. */
  lemma {:induction false} OnEveryDay(sc: Schedule, r: seq<nat>, k: nat) returns (j: nat)
    requires 1 <= k < |r| && sc.active && PastSlot(sc, r[k])
    requires !(OneDay(r, 0, k + 1) && PastSlot(sc, r[0]))
    ensures 1 <= j <= k && OneDay(r, j, k + 1) && Fires(sc, r, j)
    decreases k
  {
    FiresExactly(sc, r, k);
    if Fires(sc, r, k) {
      j := k;
    } else {
      var earlier :| 0 <= earlier < k && OneDay(r, earlier, k + 1) && PastSlot(sc, r[earlier]);
      JoinStretches(r, 0, earlier, k);
      j := OnEveryDay(sc, r, earlier);
      JoinStretches(r, j, earlier, k);
    }
  }

  lemma JoinStretches(r: seq<nat>, a: nat, b: nat, k: nat)
    requires a <= b <= k < |r| && OneDay(r, b, k + 1)
    ensures OneDay(r, a, b + 1) ==> OneDay(r, a, k + 1)
  {
    if OneDay(r, a, b + 1) {
      assert SameDay(r[b], r[k]);
      forall m | a <= m < k + 1 ensures SameDay(r[m], r[k]) {
        assert m <= b ==> SameDay(r[m], r[b]);
      }
    }
  }

  predicate TwoInADay(sc: Schedule, r: seq<nat>) {
    exists j, k :: 1 <= j < k < |r| && SameDay(r[j], r[k]) && Fires(sc, r, j) && Fires(sc, r, k)
  }

  /** The clock reached the slot of a day, went to another day, and came back to the same slot. */
  predicate Returns(sc: Schedule, r: seq<nat>, j: nat, m: nat, k: nat) {
    && 1 <= j < m < k < |r| && SameDay(r[j], r[k]) && !SameDay(r[m], r[j])
    && PastSlot(sc, r[j]) && PastSlot(sc, r[k])
    && !(OneDay(r, 0, j + 1) && PastSlot(sc, r[0]))
  }

  /** Main result. A day gets two daily GIs if and only if the clock comes back to its slot from another
      day. Going back within the day, even over the slot, does no harm. */
  lemma TwoInADayIff(sc: Schedule, r: seq<nat>)
    ensures TwoInADay(sc, r) <==> sc.active && exists j: nat, m: nat, k: nat :: Returns(sc, r, j, m, k)
  {
    if TwoInADay(sc, r) {
      var j, k :| 1 <= j < k < |r| && SameDay(r[j], r[k]) && Fires(sc, r, j) && Fires(sc, r, k);
      var m := TwiceReturns(sc, r, j, k);
    }
    if sc.active && exists j: nat, m: nat, k: nat :: Returns(sc, r, j, m, k) {
      var j: nat, m: nat, k: nat :| Returns(sc, r, j, m, k);
      ReturnsTwice(sc, r, j, m, k);
    }
  }

  lemma TwiceReturns(sc: Schedule, r: seq<nat>, j: nat, k: nat) returns (m: nat)
    requires 1 <= j < k < |r| && SameDay(r[j], r[k]) && Fires(sc, r, j) && Fires(sc, r, k)
    ensures sc.active && Returns(sc, r, j, m, k)
  {
    OncePerDay(sc, r, j, k);
    FiresExactly(sc, r, j);
    FiresExactly(sc, r, k);
    m :| j < m < k && !SameDay(r[m], r[j]);
  }

  lemma ReturnsTwice(sc: Schedule, r: seq<nat>, j: nat, m: nat, k: nat)
    requires sc.active && Returns(sc, r, j, m, k)
    ensures TwoInADay(sc, r)
  {
    BrokenStretch(r, 0, m, k);
    var first := OnEveryDay(sc, r, j);
    var second := OnEveryDay(sc, r, k);
    SameStretch(r, first, j);
    SameStretch(r, second, k);
    AfterBreak(r, second, m, k);
  }

  lemma AfterBreak(r: seq<nat>, a: nat, m: nat, k: nat)
    requires a <= k < |r| && m < k && OneDay(r, a, k + 1) && !SameDay(r[m], r[k])
    ensures m < a
  {
  }

  lemma SameStretch(r: seq<nat>, a: nat, k: nat)
    requires a <= k < |r| && OneDay(r, a, k + 1)
    ensures SameDay(r[a], r[k])
  {
  }

  lemma BrokenStretch(r: seq<nat>, a: nat, m: nat, k: nat)
    requires a <= m < k < |r| && !SameDay(r[m], r[k])
    ensures !OneDay(r, a, k + 1)
  {
  }

  /** As long as the date never goes back, every day has at most one. */
  lemma AtMostOneADay(sc: Schedule, r: seq<nat>)
    requires forall a, b | 0 <= a < b < |r| :: r[a] / DAY_MS <= r[b] / DAY_MS
    ensures !TwoInADay(sc, r)
  {
    TwoInADayIff(sc, r);
  }

  const NIGHT := Schedule(true, 0, 0)

  /** A clock set back over midnight is one that comes back. */
  lemma ClockSetBackFiresTwice()
    ensures TwoInADay(NIGHT, [0, DAY_MS, DAY_MS - 1, DAY_MS])
  {
    var r: seq<nat> := [0, DAY_MS, DAY_MS - 1, DAY_MS];
    assert !OneDay(r, 0, 2) by { assert !SameDay(r[0], r[1]); }
    assert Returns(NIGHT, r, 1, 2, 3);
    TwoInADayIff(NIGHT, r);
  }
}
