/** The section of the day that stamps every TSCE: where it comes from, and what follows for the stamps. */
module DaySections {
  import opened HnzTypes
  import opened Link
  import opened HnzSystem
  import opened Arbitration
  import opened SystemInvariants
  import opened SystemFrames
  import opened Theorems
  import opened Scenarios
  import opened Timestamps
  import Messages

  /** The section after these messages. */
  function LastModulo(ms: seq<Payload>, before: Byte): Byte
    requires forall m | m in ms :: WholeMessage(m)
    decreases |ms|
  {
    if ms == [] then before
    else
      assert WholeMessage(ms[0]);
      LastModulo(ms[1..], if ms[0][0] == Messages.MODULO_CODE then ms[0][1] else before)
  }

  lemma GiKeepsSection(cfg: SysConf, s: Sys, success: bool, now: int)
    requires WellSized(cfg, s)
    ensures GiCompleted(cfg, s, success, now).fledge.daySection == s.fledge.daySection
  {
    var s1 := CloseGi(cfg, s, success);
    if s1.active.Some? {
      SendGiKeepsLists(cfg, s1, s1.active.value, now);
    }
  }

  lemma MessageSetsSection(cfg: SysConf, s: Sys, m: Payload, now: int)
    requires WellSized(cfg, s) && WholeMessage(m)
    ensures HandleMessage(cfg, s, m, now).fledge.daySection
            == if m[0] == Messages.MODULO_CODE then m[1] else s.fledge.daySection
  {
    if m[0] == Messages.TSCE_CODE {
      RequestKeepsLists(cfg, s, now);
    } else if m[0] == Messages.TSCG_CODE {
      GiKeepsSection(cfg, NoteTscg(cfg, s, m[1]), true, now);
    }
  }

  lemma {:induction false} MessagesSetSection(cfg: SysConf, s: Sys, ms: seq<Payload>, now: int)
    requires WellSized(cfg, s) && forall m | m in ms :: WholeMessage(m)
    ensures var r := HandleMessages(cfg, s, ms, now);
            !r.crashed ==> r.fledge.daySection == LastModulo(ms, s.fledge.daySection)
    decreases |ms|
  {
    if ms != [] && !s.crashed {
      MessageSetsSection(cfg, s, ms[0], now);
      MessagesSetSection(cfg, HandleMessage(cfg, s, ms[0], now), ms[1..], now);
    }
  }

  lemma TurnKeepsSection(cfg: SysConf, s: Sys, current: nat, now: int)
    requires WellSized(cfg, s)
    ensures CheckGi(cfg, s, current, now).fledge.daySection == s.fledge.daySection
  {
    GiKeepsSection(cfg, s, false, now);
    if s.active.Some? {
      SendGiKeepsLists(cfg, ForgetReceived(s), s.active.value, now);
    }
    var s1 := CheckGiTimeout(cfg, s, current, now);
    assert s1.fledge.daySection == s.fledge.daySection;
    var s2 := s1.(sched := NewDay(cfg.schedule, s1.sched, current));
    if s2.active.Some? {
      SendGiKeepsLists(cfg, s2, s2.active.value, now);
    }
  }

  /** An information frame that goes through m_receivedINFO. */
  predicate InfoFrame(cfg: SysConf, s: Sys, e: Event)
    requires Ready(cfg, s)
  {
    && e.Receive? && e.frame.INFO? && e.i < |s.paths| && Expressible(cfg.paths[e.i], e.frame)
    && s.paths[e.i].proto != Connection
  }

  /** The section a step leaves. */
  function SectionAfter(cfg: SysConf, s: Sys, e: Event, before: Byte): Byte
    requires Ready(cfg, s)
  {
    if InfoFrame(cfg, s, e) then LastModulo(AnswerInfo(cfg, s, e.i, e.frame, e.now).1, before)
    else if e.Init? && e.i < |s.paths| && SetsTime(cfg, s, e.i, e.now) then e.cal.section
    else before
  }

  lemma StepSetsSection(cfg: SysConf, s: Sys, e: Event)
    requires Ready(cfg, s) && !s.crashed
    ensures var r := Step(cfg, s, e);
            !r.crashed ==> r.fledge.daySection == SectionAfter(cfg, s, e, s.fledge.daySection)
  {
    if Concerns(s, e) {
      if e.GiTurn? {
        TurnKeepsSection(cfg, s, e.current, e.now);
      } else if e.Receive? && e.frame.INFO? {
        if InfoFrame(cfg, s, e) {
          FrameKeepsLists(cfg, s, e.i, e.frame, e.now);
          var (s1, ms) := AnswerInfo(cfg, s, e.i, e.frame, e.now);
          MessagesSetSection(cfg, s1, ms, e.now);
        }
      } else if e.Init? {
        InitKeepsLists(cfg, s, e.i, e.cal, e.now);
      } else {
        QuietEventsKeepLists(cfg, s, e);
      }
    }
  }

  /** The section of the last MODULO handled or time setting made, 0 before any. */
  function SectionOfRun(cfg: SysConf, current: nat, now: int, evs: seq<Event>): Byte {
    if evs == [] then 0
    else
      var init := evs[..|evs| - 1];
      var s := Reached(cfg, current, now, init);
      var before := SectionOfRun(cfg, current, now, init);
      if s.crashed || !Ready(cfg, s) then before else SectionAfter(cfg, s, evs[|evs| - 1], before)
  }

  /** In every run m_daySection is that section. */
  lemma {:induction false} SectionIsLast(cfg: SysConf, current: nat, now: int, evs: seq<Event>)
    requires !Reached(cfg, current, now, evs).crashed
    ensures Reached(cfg, current, now, evs).fledge.daySection == SectionOfRun(cfg, current, now, evs)
    decreases |evs|
  {
    if evs != [] {
      var init := evs[..|evs| - 1];
      var s := Reached(cfg, current, now, init);
      RunKeepsInv(cfg, current, now, init);
      InvIsReady(cfg, s);
      SectionIsLast(cfg, current, now, init);
      StepSetsSection(cfg, s, evs[|evs| - 1]);
    }
  }

  /** The state in which a TSCE of a frame is handled, after the messages of that frame before it. */
  function WhenHandled(cfg: SysConf, s: Sys, i: nat, f: Frame, at: int, before: seq<Payload>): Sys
    requires WellSized(cfg, s) && i < |s.paths| && f.INFO? && Expressible(cfg.paths[i], f)
    requires WaitingSendable(cfg.paths[i], s.paths[i]) && forall m | m in before :: WholeMessage(m)
  {
    HandleMessages(cfg, AnswerInfo(cfg, s, i, f, at).0, before, at)
  }

  /** The section that is held then: of the last MODULO in the frame, or else in the run. */
  lemma SectionWhenHandled(cfg: SysConf, current: nat, now: int, evs: seq<Event>, i: nat, f: Frame, at: int,
                           before: seq<Payload>)
    requires i < |cfg.paths| && f.INFO? && Expressible(cfg.paths[i], f)
    requires forall m | m in before :: WholeMessage(m)
    ensures var s := Reached(cfg, current, now, evs);
            && Ready(cfg, s) && i < |s.paths|
            && (!s.crashed && !WhenHandled(cfg, s, i, f, at, before).crashed ==>
                  WhenHandled(cfg, s, i, f, at, before).fledge.daySection
                  == LastModulo(before, SectionOfRun(cfg, current, now, evs)))
  {
    RunKeepsInv(cfg, current, now, evs);
    var s := Reached(cfg, current, now, evs);
    InvIsReady(cfg, s);
    if !s.crashed && !WhenHandled(cfg, s, i, f, at, before).crashed {
      SectionIsLast(cfg, current, now, evs);
      FrameKeepsLists(cfg, s, i, f, at);
      MessagesSetSection(cfg, AnswerInfo(cfg, s, i, f, at).0, before, at);
    }
  }

  /** Main result. In every run, in every frame, a TSCE is stamped with its time if and only if the section of the
      last MODULO or time setting, in the day the code takes, is the ten minutes of the event. */
  lemma StampInRunIff(cfg: SysConf, current: nat, now: int, evs: seq<Event>, i: nat, f: Frame, at: int,
                      before: seq<Payload>, t: nat, local: nat, clock: nat, offset: int)
    requires i < |cfg.paths| && f.INFO? && Expressible(cfg.paths[i], f)
    requires forall m | m in before :: WholeMessage(m)
    requires InRange(t) && clock < TWO_64 - 4 * DAY_MS && -86400 < offset < 86400 && local == t + offset * 1000
    ensures var s := Reached(cfg, current, now, evs);
            var section := LastModulo(before, SectionOfRun(cfg, current, now, evs));
            var x := FractionOf(local);
            && Ready(cfg, s) && i < |s.paths|
            && (!s.crashed && !WhenHandled(cfg, s, i, f, at, before).crashed ==>
                  (TsceTimestamp(clock, offset, WhenHandled(cfg, s, i, f, at, before).fledge.daySection, x / 256, x % 256)
                   == t
                   <==> (LocalDay(clock, offset) + DayShift(clock, section)) * 144 + section == local / SECTION_MS))
  {
    SectionWhenHandled(cfg, current, now, evs, i, f, at, before);
    TsceStampIff(t, local, clock, offset, LastModulo(before, SectionOfRun(cfg, current, now, evs)));
  }

  // ---------------------------------------------------------------- a section of the wrong ten minutes

  function Modulo(section: Byte): Payload {
    [Messages.MODULO_CODE, section]
  }

  lemma ModuloAnswered(cfg: SysConf, s: Sys, i: nat, section: Byte, at: int)
    requires WellSized(cfg, s) && Listening(s, i) && WaitingSendable(cfg.paths[i], s.paths[i])
    ensures var f := INFO(0, s.paths[i].nrr, false, Modulo(section));
            && Expressible(cfg.paths[i], f) && WholeMessage(Modulo(section))
            && AnswerInfo(cfg, s, i, f, at).1 == [Modulo(section)]
            && WellSized(cfg, AnswerInfo(cfg, s, i, f, at).0) && !AnswerInfo(cfg, s, i, f, at).0.crashed
  {
    ModuloIsWhole(cfg.paths[i].bulleReceive, section);
  }

  lemma ModuloIsWhole(bulle: (Byte, Byte), section: Byte)
    ensures Messages.Uncut(bulle, Modulo(section)) && Messages.Extract(bulle, Modulo(section)) == [Modulo(section)]
  {
  }

  lemma ModuloArrives(cfg: SysConf, s: Sys, i: nat, section: Byte, at: int)
    requires Ready(cfg, s) && Listening(s, i)
    ensures var r := Step(cfg, s, Receive(i, INFO(0, s.paths[i].nrr, false, Modulo(section)), at));
            !r.crashed && r.fledge.daySection == section
  {
    var f := INFO(0, s.paths[i].nrr, false, Modulo(section));
    ModuloAnswered(cfg, s, i, section, at);
    var s1 := AnswerInfo(cfg, s, i, f, at).0;
    TscgStep(cfg, s, i, f, at, s1, Modulo(section));
    OneMessage(cfg, s1, Modulo(section), at);
  }

  /** A TSCE handled after the MODULO of the next ten minutes is ten minutes late, in every configuration: UTC, event
      at 10:09:59.990 of the second day, clock 20 ms later, MODULO 61. The hours agree. */
  lemma EarlyModuloIsTenMinutesOff(cfg: SysConf, i: nat)
    requires i < |cfg.paths|
    ensures var s := Reached(cfg, 0, 0, OpeningEvents(cfg, i) + [Receive(i, INFO(0, 0, false, Modulo(61)), 0)]);
            var t := DAY_MS + 10 * HOUR_MS + 599990;
            var f := FractionOf(t);
            && s.fledge.daySection == 61 && HoursAgree(t + 20, 0, SectionOf(t))
            && TsceTimestamp(t + 20, 0, s.fledge.daySection, f / 256, f % 256) == t + SECTION_MS
  {
    var s := Opened(cfg, i);
    var e := Receive(i, INFO(0, 0, false, Modulo(61)), 0);
    ReachedIsReady(cfg, OpeningEvents(cfg, i));
    ModuloArrives(cfg, s, i, 61, 0);
    RunThen(cfg, OpeningEvents(cfg, i), e);
    EarlySectionIsLate();
  }

  lemma EarlySectionIsLate()
    ensures var t := DAY_MS + 10 * HOUR_MS + 599990;
            var f := FractionOf(t);
            && HoursAgree(t + 20, 0, SectionOf(t))
            && TsceTimestamp(t + 20, 0, 61, f / 256, f % 256) == t + SECTION_MS
  {
    var t := DAY_MS + 10 * HOUR_MS + 599990;
    assert t == 123000000 - 10 && FractionOf(t) == 59999 && SectionOf(t) == 60;
    EpochMsIs(t + 20, 61, 59999);
    assert 59999 / 256 * 256 + 59999 % 256 == 59999;
    assert (t + 20) / DAY_MS == 1 && OffsetSeconds(t + 20, 0) == 0;
    assert DayShift(t + 20, 61) == 0;
  }

  // ---------------------------------------------------------------- a section that was never set

  /** What m_handleTSCE asks before it leaves a timestamp out. */
  predicate LeavesStampOut(s: Sys) {
    s.active.Some? && s.active.value < |s.paths| && s.paths[s.active.value].proto == InputConnected
  }

  /** It never does, in any run: an active path is CONNECTED. */
  lemma StampIsNeverLeftOut(cfg: SysConf, current: nat, now: int, evs: seq<Event>)
    ensures !LeavesStampOut(Reached(cfg, current, now, evs))
  {
    RunKeepsInv(cfg, current, now, evs);
    NotLeftOut(cfg, Reached(cfg, current, now, evs));
  }

  /** Nor between the messages of a frame. */
  lemma StampIsNeverLeftOutInFrame(cfg: SysConf, current: nat, now: int, evs: seq<Event>, i: nat, f: Frame, at: int,
                                   before: seq<Payload>)
    requires i < |cfg.paths| && f.INFO? && Expressible(cfg.paths[i], f)
    requires forall m | m in before :: WholeMessage(m)
    ensures var s := Reached(cfg, current, now, evs);
            && Ready(cfg, s) && i < |s.paths|
            && !LeavesStampOut(WhenHandled(cfg, s, i, f, at, before))
  {
    RunKeepsInv(cfg, current, now, evs);
    var s := Reached(cfg, current, now, evs);
    InvIsReady(cfg, s);
    AnswerInfoKeepsInv(cfg, s, i, f, at);
    HandleMessagesKeepsInv(cfg, AnswerInfo(cfg, s, i, f, at).0, before, at);
    NotLeftOut(cfg, HandleMessages(cfg, AnswerInfo(cfg, s, i, f, at).0, before, at));
  }

  lemma NotLeftOut(cfg: SysConf, s: Sys)
    requires SysInv(cfg, s)
    ensures !LeavesStampOut(s)
  {
    if s.active.Some? {
      assert Abstracts(s.paths[s.active.value]);
    }
  }

  /** The case it is meant for is reached, in every configuration on every path: INPUT_CONNECTED, delivering, and no
      section was ever set. */
  lemma UnsetSectionIsReached(cfg: SysConf, i: nat)
    requires i < |cfg.paths|
    ensures var t := OpeningTime(cfg, i);
            var s := Reached(cfg, 0, 0, [Connect(i, t), Receive(i, SARM, t)]);
            && i < |s.paths| && s.paths[i].proto == InputConnected && CanExtract(s, i) && s.fledge.daySection == 0
            && !LeavesStampOut(s)
  {
    var t := OpeningTime(cfg, i);
    var s1 := Connects(cfg, i);
    var s2 := InputOpens(cfg, s1, i);
    RunThen(cfg, [], Connect(i, t));
    RunThen(cfg, [Connect(i, t)], Receive(i, SARM, t));
    assert [] + [Connect(i, t)] == [Connect(i, t)];
    assert [Connect(i, t)] + [Receive(i, SARM, t)] == [Connect(i, t), Receive(i, SARM, t)];
  }
}
