/** The daily General Interrogation in whole runs of the plugin. */
module DailyGi {
  import opened HnzTypes
  import opened HnzSystem
  import opened SystemInvariants
  import opened SystemFrames
  import opened Theorems
  import opened GiSchedules

  /** The clock readings of a run: the one at the start, then one for each turn of the supervisor. */
  function Clock(cfg: SysConf, current: nat, now: int, evs: seq<Event>): (r: seq<nat>)
    ensures r != [] && r[0] == current
  {
    if evs == [] then [current]
    else
      var init, e := evs[..|evs| - 1], evs[|evs| - 1];
      var r := Clock(cfg, current, now, init);
      if e.GiTurn? && !Reached(cfg, current, now, init).crashed then r + [e.current] else r
  }

  /** The schedule in every reached state is the one these readings give, whatever else happened. */
  lemma {:induction false} ScheduleFollowsClock(cfg: SysConf, current: nat, now: int, evs: seq<Event>)
    ensures Reached(cfg, current, now, evs).sched == After(cfg.schedule, Clock(cfg, current, now, evs))
    decreases |evs|
  {
    if evs != [] {
      var init, e := evs[..|evs| - 1], evs[|evs| - 1];
      ScheduleFollowsClock(cfg, current, now, init);
      RunKeepsInv(cfg, current, now, init);
      var s := Reached(cfg, current, now, init);
      if e.GiTurn? && !s.crashed {
        TurnMovesSchedule(cfg, s, e);
        var r := Clock(cfg, current, now, init);
        assert (r + [e.current])[..|r|] == r;
      } else {
        OnlyTurnsTick(cfg, s, if e.GiTurn? then Stop else e);
      }
    }
  }

  lemma TurnIsCheckGi(cfg: SysConf, s: Sys, e: Event)
    requires SysInv(cfg, s) && !s.crashed && e.GiTurn?
    ensures WellSized(cfg, s) && Step(cfg, s, e) == CheckGi(cfg, s, e.current, e.now)
  {
    InvIsReady(cfg, s);
  }

  lemma TurnMovesSchedule(cfg: SysConf, s: Sys, e: Event)
    requires SysInv(cfg, s) && !s.crashed && e.GiTurn?
    ensures Step(cfg, s, e).sched == Tick(cfg.schedule, s.sched, e.current).0
  {
    TurnIsCheckGi(cfg, s, e);
    TimeoutIsQuiet(cfg, s, e.current, e.now);
    TurnMoves(cfg, s, e.current, e.now);
  }

  lemma TurnMoves(cfg: SysConf, s: Sys, current: nat, now: int)
    requires WellSized(cfg, s) && !CheckGiTimeout(cfg, s, current, now).crashed
    ensures CheckGi(cfg, s, current, now).sched == Tick(cfg.schedule, s.sched, current).0
  {
    TurnTicks(cfg, s, current, now);
  }

  lemma TimeoutIsQuiet(cfg: SysConf, s: Sys, current: nat, now: int)
    requires SysInv(cfg, s) && !s.crashed
    ensures SysInv(cfg, CheckGiTimeout(cfg, s, current, now)) && !CheckGiTimeout(cfg, s, current, now).crashed
  {
    if s.giRepeat != 0 && s.giStart + cfg.giTimeMax < current {
      CheckGiCompletedKeepsInv(cfg, s, false, now);
    }
  }

  /** The next turn, with this reading, finds the daily GI due. */
  predicate Due(cfg: SysConf, current: nat, now: int, evs: seq<Event>, reading: nat) {
    var r := Clock(cfg, current, now, evs);
    Fires(cfg.schedule, r + [reading], |r|)
  }

  /** Main result. In every run a turn of the supervisor hands a scheduled GI request to the link layer of
      the active path if and only if there is one and the reading is the first at or past the slot in the
      unbroken stretch of readings of its day; otherwise the scheduled GI changes nothing but the schedule. */
  lemma ScheduledGiIff(cfg: SysConf, current: nat, now: int, evs: seq<Event>, reading: nat, at: int)
    requires !Reached(cfg, current, now, evs).crashed
    ensures var s := Reached(cfg, current, now, evs);
            var r := Clock(cfg, current, now, evs) + [reading];
            WellSized(cfg, s) && SysInv(cfg, CheckGiTimeout(cfg, s, reading, at))
            && var s1 := CheckGiTimeout(cfg, s, reading, at);
               Step(cfg, s, GiTurn(reading, at))
               == (if Due(cfg, current, now, evs, reading) && s1.active.Some?
                   then SendGeneralInterrogation(cfg, s1, s1.active.value, at) else s1)
                  .(sched := After(cfg.schedule, r))
    ensures var r := Clock(cfg, current, now, evs);
            Due(cfg, current, now, evs, reading)
            <==> cfg.schedule.active && FirstPast(cfg.schedule, r + [reading], |r|)
  {
    TurnOfRun(cfg, current, now, evs, reading, at);
    DueIff(cfg, current, now, evs, reading);
  }

  lemma TurnOfRun(cfg: SysConf, current: nat, now: int, evs: seq<Event>, reading: nat, at: int)
    requires !Reached(cfg, current, now, evs).crashed
    ensures var s := Reached(cfg, current, now, evs);
            var r := Clock(cfg, current, now, evs) + [reading];
            WellSized(cfg, s) && SysInv(cfg, CheckGiTimeout(cfg, s, reading, at))
            && var s1 := CheckGiTimeout(cfg, s, reading, at);
               Step(cfg, s, GiTurn(reading, at))
               == (if Due(cfg, current, now, evs, reading) && s1.active.Some?
                   then SendGeneralInterrogation(cfg, s1, s1.active.value, at) else s1)
                  .(sched := After(cfg.schedule, r))
  {
    RunKeepsInv(cfg, current, now, evs);
    var s := Reached(cfg, current, now, evs);
    TurnIsCheckGi(cfg, s, GiTurn(reading, at));
    TimeoutIsQuiet(cfg, s, reading, at);
    ScheduleFollowsClock(cfg, current, now, evs);
    LastTick(cfg.schedule, Clock(cfg, current, now, evs), reading);
    TurnTicks(cfg, s, reading, at);
  }

  lemma LastTick(sc: Schedule, r: seq<nat>, reading: nat)
    requires r != []
    ensures var (g, due) := Tick(sc, After(sc, r), reading);
            After(sc, r + [reading]) == g && Fires(sc, r + [reading], |r|) == due
  {
    assert (r + [reading])[..|r|] == r;
  }

  lemma DueIff(cfg: SysConf, current: nat, now: int, evs: seq<Event>, reading: nat)
    ensures var r := Clock(cfg, current, now, evs);
            Due(cfg, current, now, evs, reading)
            <==> cfg.schedule.active && FirstPast(cfg.schedule, r + [reading], |r|)
  {
    var r := Clock(cfg, current, now, evs);
    FiresExactly(cfg.schedule, r + [reading], |r|);
  }

  /** Event k of the run is a turn that finds the daily GI due. */
  predicate StartsDaily(cfg: SysConf, current: nat, now: int, evs: seq<Event>, k: nat) {
    && k < |evs| && evs[k].GiTurn? && !Reached(cfg, current, now, evs[..k]).crashed
    && Due(cfg, current, now, evs[..k], evs[k].current)
  }

  lemma {:induction false} ClockGrows(cfg: SysConf, current: nat, now: int, evs: seq<Event>, k: nat)
    requires k <= |evs|
    ensures Clock(cfg, current, now, evs[..k]) <= Clock(cfg, current, now, evs)
    decreases |evs| - k
  {
    if k == |evs| {
      assert evs[..k] == evs;
    } else {
      ClockGrows(cfg, current, now, evs, k + 1);
      assert evs[..k + 1][..k] == evs[..k];
    }
  }

  /** The place of a turn among the readings. */
  lemma TurnInClock(cfg: SysConf, current: nat, now: int, evs: seq<Event>, k: nat) returns (p: nat)
    requires k < |evs| && evs[k].GiTurn? && !Reached(cfg, current, now, evs[..k]).crashed
    ensures p == |Clock(cfg, current, now, evs[..k])| < |Clock(cfg, current, now, evs)|
    ensures p >= 1 && Clock(cfg, current, now, evs)[p] == evs[k].current
    ensures Fires(cfg.schedule, Clock(cfg, current, now, evs), p) <==> StartsDaily(cfg, current, now, evs, k)
  {
    var r := Clock(cfg, current, now, evs);
    p := |Clock(cfg, current, now, evs[..k])|;
    assert evs[..k + 1][..k] == evs[..k];
    ClockGrows(cfg, current, now, evs, k + 1);
    assert r[..p + 1] == Clock(cfg, current, now, evs[..k]) + [evs[k].current];
    FiresInPrefix(cfg.schedule, r, p + 1, p);
  }

  /** Every reading but the first belongs to a turn. */
  lemma {:induction false} ClockOfTurns(cfg: SysConf, current: nat, now: int, evs: seq<Event>, p: nat) returns (k: nat)
    requires 1 <= p < |Clock(cfg, current, now, evs)|
    ensures k < |evs| && evs[k].GiTurn? && !Reached(cfg, current, now, evs[..k]).crashed
    ensures p == |Clock(cfg, current, now, evs[..k])| && Clock(cfg, current, now, evs)[p] == evs[k].current
    decreases |evs|
  {
    var init := evs[..|evs| - 1];
    if p < |Clock(cfg, current, now, init)| {
      k := ClockOfTurns(cfg, current, now, init, p);
      assert init[..k] == evs[..k];
      ClockGrows(cfg, current, now, evs, |evs| - 1);
    } else {
      k := |evs| - 1;
    }
  }

  lemma ClockOrder(cfg: SysConf, current: nat, now: int, evs: seq<Event>, j: nat, k: nat)
    requires j <= k <= |evs|
    ensures |Clock(cfg, current, now, evs[..j])| <= |Clock(cfg, current, now, evs[..k])|
  {
    ClockGrows(cfg, current, now, evs[..k], j);
    assert evs[..k][..j] == evs[..j];
  }

  lemma TurnsInOrder(cfg: SysConf, current: nat, now: int, evs: seq<Event>, j: nat, k: nat)
    requires j < k <= |evs| && evs[j].GiTurn? && !Reached(cfg, current, now, evs[..j]).crashed
    ensures |Clock(cfg, current, now, evs[..j])| < |Clock(cfg, current, now, evs[..k])|
  {
    assert evs[..k][..j] == evs[..j] && evs[..k][j] == evs[j];
    var _ := TurnInClock(cfg, current, now, evs[..k], j);
  }

  /** In every run: between two turns that find the daily GI of the same day due, a turn read another day. */
  lemma RunOncePerDay(cfg: SysConf, current: nat, now: int, evs: seq<Event>, j: nat, k: nat)
    requires j < k && StartsDaily(cfg, current, now, evs, j) && StartsDaily(cfg, current, now, evs, k)
    requires SameDay(evs[j].current, evs[k].current)
    ensures exists m | j < m < k :: evs[m].GiTurn? && !SameDay(evs[m].current, evs[j].current)
  {
    var r := Clock(cfg, current, now, evs);
    var a := TurnInClock(cfg, current, now, evs, j);
    var b := TurnInClock(cfg, current, now, evs, k);
    TurnsInOrder(cfg, current, now, evs, j, k);
    OncePerDay(cfg.schedule, r, a, b);
    var p :| a < p < b && !SameDay(r[p], r[a]);
    var m := ClockOfTurns(cfg, current, now, evs, p);
    if m <= j {
      ClockOrder(cfg, current, now, evs, m, j);
    }
    if k <= m {
      ClockOrder(cfg, current, now, evs, k, m);
    }
  }

  /** In every run: a turn at or past the slot has the daily GI of its day behind it or is it, unless the
      program started past the slot and never read another day since. */
  lemma RunOnEveryDay(cfg: SysConf, current: nat, now: int, evs: seq<Event>, k: nat) returns (j: nat)
    requires k < |evs| && evs[k].GiTurn? && !Reached(cfg, current, now, evs[..k]).crashed
    requires cfg.schedule.active && PastSlot(cfg.schedule, evs[k].current)
    requires !(PastSlot(cfg.schedule, current)
               && SameDay(current, evs[k].current)
               && forall m | 0 <= m < k && evs[m].GiTurn? :: SameDay(evs[m].current, evs[k].current))
    ensures j <= k && StartsDaily(cfg, current, now, evs, j) && SameDay(evs[j].current, evs[k].current)
  {
    var r := Clock(cfg, current, now, evs);
    var b := TurnInClock(cfg, current, now, evs, k);
    if OneDay(r, 0, b + 1) && PastSlot(cfg.schedule, r[0]) {
      StartStretch(cfg, current, now, evs, k, b);
    }
    var a := OnEveryDay(cfg.schedule, r, b);
    j := ClockOfTurns(cfg, current, now, evs, a);
    var _ := TurnInClock(cfg, current, now, evs, j);
    assert SameDay(r[a], r[b]);
    if k < j {
      TurnsInOrder(cfg, current, now, evs, k, j);
    }
  }

  lemma StartStretch(cfg: SysConf, current: nat, now: int, evs: seq<Event>, k: nat, b: nat)
    requires k < |evs| && evs[k].GiTurn? && !Reached(cfg, current, now, evs[..k]).crashed
    requires var r := Clock(cfg, current, now, evs);
             && 1 <= b < |r| && b == |Clock(cfg, current, now, evs[..k])| && r[b] == evs[k].current
             && OneDay(r, 0, b + 1)
    ensures SameDay(current, evs[k].current)
    ensures forall m | 0 <= m < k && evs[m].GiTurn? :: SameDay(evs[m].current, evs[k].current)
  {
    var r := Clock(cfg, current, now, evs);
    ClockGrows(cfg, current, now, evs, 0);
    assert evs[..0] == [] && r[0] == current;
    assert SameDay(r[0], r[b]);
    forall m | 0 <= m < k && evs[m].GiTurn? ensures SameDay(evs[m].current, evs[k].current) {
      StillRunning(cfg, current, now, evs, m, k);
      var p := TurnInClock(cfg, current, now, evs, m);
      ClockOrder(cfg, current, now, evs, m, k);
      assert SameDay(r[p], r[b]);
    }
  }

  lemma {:induction false} StillRunning(cfg: SysConf, current: nat, now: int, evs: seq<Event>, m: nat, k: nat)
    requires m <= k <= |evs| && !Reached(cfg, current, now, evs[..k]).crashed
    ensures !Reached(cfg, current, now, evs[..m]).crashed
    decreases k - m
  {
    if m < k {
      assert evs[..k][..k - 1] == evs[..k - 1];
      StillRunning(cfg, current, now, evs, m, k - 1);
    }
  }
}
