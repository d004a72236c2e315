/** A General Interrogation whose requests do not go out: the window of the active path is full. */
module FullWindow {
  import opened HnzTypes
  import opened GiLog
  import opened Link
  import opened HnzSystem
  import opened Arbitration
  import opened SystemInvariants
  import opened Theorems
  import opened GiSchedules
  import opened DailyGi
  import opened Campaign

  /** Without room the request waits and is not counted. */
  lemma FullWindowIsNotCounted(cfg: SysConf, s: Sys, now: int)
    requires SysInv(cfg, s) && s.active.Some? && !Room(cfg, s)
    ensures var i := s.active.value;
            var r := SendGeneralInterrogation(cfg, s, i, now);
            && r.giRepeat == s.giRepeat && r.giStart == s.giStart && r.fledge == s.fledge
            && r.giLog == s.giLog + [GiMark.Requested(false)]
            && r.active == s.active && |r.paths| == |s.paths| && r.paths[i].sent == s.paths[i].sent
            && r.paths[i].h.wire == s.paths[i].h.wire
            && r.paths[i].waiting == s.paths[i].waiting + [GI_REQUEST]
            && r.crashed == s.crashed
  {
    assert Abstracts(s.paths[s.active.value]);
  }

  predicate Turns(cfg: SysConf, s: Sys, turns: seq<Event>) {
    forall e | e in turns :: e.GiTurn? && TimedOut(cfg, s, e.current)
  }

  /** How many of these turns find the daily GI due, and the schedule after them. */
  function Daily(sc: Schedule, g: GiSchedule, turns: seq<Event>): (nat, GiSchedule)
    requires forall e | e in turns :: e.GiTurn?
  {
    if turns == [] then (0, g)
    else
      var (n, g1) := Daily(sc, g, turns[..|turns| - 1]);
      var (g2, due) := Tick(sc, g1, turns[|turns| - 1].current);
      (n + (if due then 1 else 0), g2)
  }

  /** n more requests wait on the active path; nothing of the campaign has moved and nothing was sent. */
  predicate Asked(s: Sys, r: Sys, n: nat) {
    && !r.crashed && r.active == s.active && s.active.Some? && s.active.value < |s.paths| == |r.paths|
    && r.giRepeat == s.giRepeat && r.giStart == s.giStart && r.fledge.giStatus == s.fledge.giStatus
    && var p, q := s.paths[s.active.value], r.paths[s.active.value];
       q.sent == p.sent && q.h.wire == p.h.wire && q.waiting == p.waiting + seq(n, _ => GI_REQUEST)
  }

  /** These turns have asked again. */
  predicate Waiting(cfg: SysConf, s: Sys, r: Sys, turns: seq<Event>)
    requires Turns(cfg, s, turns)
  {
    var (n, g) := Daily(cfg.schedule, s.sched, turns);
    Asked(s, r, |turns| + n) && r.sched == g
  }

  lemma AskedOnceMore(cfg: SysConf, s: Sys, r: Sys, n: nat, now: int)
    requires WellSized(cfg, s) && s.active.Some? && !Room(cfg, s) && SysInv(cfg, r) && Asked(s, r, n)
    ensures Asked(s, SendGeneralInterrogation(cfg, r, r.active.value, now), n + 1)
  {
    FullWindowIsNotCounted(cfg, r, now);
    assert seq(n + 1, _ => GI_REQUEST) == seq(n, _ => GI_REQUEST) + [GI_REQUEST];
  }

  /** Main result. While the window stays full, every timed-out turn of the supervisor puts one more GI request into
      the waiting queue, and so does the daily GI; none is counted, and the time of the GI does not start again. */
  lemma FullWindowAsksAgain(cfg: SysConf, current: nat, now: int, evs: seq<Event>, turns: seq<Event>)
    requires var s := Reached(cfg, current, now, evs);
             && !s.crashed && s.active.Some? && !Room(cfg, s) && 1 <= s.giRepeat <= cfg.giRepeatMax
             && Turns(cfg, s, turns)
    ensures Waiting(cfg, Reached(cfg, current, now, evs), Reached(cfg, current, now, evs + turns), turns)
  {
    assert WellSized(cfg, Reached(cfg, current, now, evs)) by {
      RunKeepsInv(cfg, current, now, evs);
    }
    AsksAgain(cfg, current, now, evs, Reached(cfg, current, now, evs), turns);
  }

  lemma {:induction false} AsksAgain(cfg: SysConf, current: nat, now: int, evs: seq<Event>, s: Sys, turns: seq<Event>)
    requires s == Reached(cfg, current, now, evs) && !s.crashed && WellSized(cfg, s)
    requires s.active.Some? && !Room(cfg, s) && 1 <= s.giRepeat <= cfg.giRepeatMax && Turns(cfg, s, turns)
    ensures Waiting(cfg, s, Reached(cfg, current, now, evs + turns), turns)
    decreases |turns|
  {
    if turns == [] {
      assert evs + turns == evs;
      AskedNothing(cfg, s);
    } else {
      var init, e := turns[..|turns| - 1], turns[|turns| - 1];
      AsksAgain(cfg, current, now, evs, s, init);
      assert e in turns && init + [e] == turns && evs + turns == (evs + init) + [e];
      FullTurnOfRun(cfg, current, now, evs, s, init, e);
    }
  }

  lemma AskedNothing(cfg: SysConf, s: Sys)
    requires !s.crashed && s.active.Some? && s.active.value < |s.paths|
    ensures Waiting(cfg, s, s, [])
  {
    assert s.paths[s.active.value].waiting + [] == s.paths[s.active.value].waiting;
  }

  lemma FullTurnOfRun(cfg: SysConf, current: nat, now: int, evs: seq<Event>, s: Sys, init: seq<Event>, e: Event)
    requires s.active.Some? && !Room(cfg, s) && 1 <= s.giRepeat <= cfg.giRepeatMax && WellSized(cfg, s)
    requires Turns(cfg, s, init) && e.GiTurn? && TimedOut(cfg, s, e.current)
    requires Waiting(cfg, s, Reached(cfg, current, now, evs + init), init)
    ensures Waiting(cfg, s, Reached(cfg, current, now, evs + init + [e]), init + [e])
  {
    assert Waiting(cfg, s, Step(cfg, Reached(cfg, current, now, evs + init), e), init + [e]) by {
      RunKeepsInv(cfg, current, now, evs + init);
      OneMoreTurn(cfg, s, Reached(cfg, current, now, evs + init), init, e);
    }
    Continues(cfg, current, now, evs + init, e);
  }

  lemma OneMoreTurn(cfg: SysConf, s: Sys, r: Sys, init: seq<Event>, e: Event)
    requires WellSized(cfg, s) && s.active.Some? && !Room(cfg, s) && 1 <= s.giRepeat <= cfg.giRepeatMax
    requires Turns(cfg, s, init) && e.GiTurn? && TimedOut(cfg, s, e.current)
    requires SysInv(cfg, r) && Waiting(cfg, s, r, init)
    ensures Waiting(cfg, s, Step(cfg, r, e), init + [e])
  {
    FullTurn(cfg, s, r, |init| + Daily(cfg.schedule, s.sched, init).0, e);
    assert (init + [e])[..|init|] == init;
  }

  /** The turn e asks again, once for the timeout and once more if the daily GI is due. */
  lemma FullTurn(cfg: SysConf, s: Sys, r: Sys, n: nat, e: Event)
    requires WellSized(cfg, s) && s.active.Some? && !Room(cfg, s) && 1 <= s.giRepeat <= cfg.giRepeatMax
    requires SysInv(cfg, r) && Asked(s, r, n) && e.GiTurn? && TimedOut(cfg, s, e.current)
    ensures var (g, due) := Tick(cfg.schedule, r.sched, e.current);
            && Asked(s, Step(cfg, r, e), n + (if due then 2 else 1)) && Step(cfg, r, e).sched == g
  {
    var r1 := CheckGiTimeout(cfg, r, e.current, e.now);
    TimeoutAsks(cfg, s, r, n, e.current, e.now);
    assert SysInv(cfg, r1) by {
      TimeoutIsQuiet(cfg, r, e.current, e.now);
    }
    AskedOnceMore(cfg, s, r1, n + 1, e.now);
    assert Step(cfg, r, e) == CheckGi(cfg, r, e.current, e.now) by {
      TurnIsCheckGi(cfg, r, e);
    }
    TurnTicks(cfg, r, e.current, e.now);
  }

  lemma TimeoutAsks(cfg: SysConf, s: Sys, r: Sys, n: nat, current: nat, now: int)
    requires WellSized(cfg, s) && s.active.Some? && !Room(cfg, s) && 1 <= s.giRepeat <= cfg.giRepeatMax
    requires SysInv(cfg, r) && Asked(s, r, n) && TimedOut(cfg, s, current)
    ensures Asked(s, CheckGiTimeout(cfg, r, current, now), n + 1)
  {
    assert SysInv(cfg, ForgetReceived(r)) by {
      ForgetReceivedKeepsInv(cfg, r);
    }
    AskedOnceMore(cfg, s, ForgetReceived(r), n, now);
  }
}
