/** When exactly the program ends on a null active path. */
module Crashes {
  import opened HnzTypes
  import opened Modulo8
  import opened Link
  import opened HnzSystem
  import opened SystemInvariants
  import opened SystemFrames
  import opened Theorems
  import GiResult
  import Messages

  /** The list of received addresses never rests on the last expected one: that ends the GI. */
  predicate ListOpen(cfg: SysConf, s: Sys) {
    s.crashed || !LastIsIn(cfg, s.fledge.giReceived)
  }

  lemma GiCompletedEmptiesList(cfg: SysConf, s: Sys, success: bool, now: int)
    requires WellSized(cfg, s)
    ensures GiCompleted(cfg, s, success, now).fledge.giReceived == []
  {
  }

  lemma MessageKeepsListOpen(cfg: SysConf, s: Sys, m: Payload, now: int)
    requires WellSized(cfg, s) && WholeMessage(m) && ListOpen(cfg, s) && !s.crashed
    ensures ListOpen(cfg, HandleMessage(cfg, s, m, now))
  {
    if m[0] == Messages.TSCE_CODE {
      RequestKeepsLists(cfg, s, now);
    } else if m[0] == Messages.TSCG_CODE {
      GiCompletedEmptiesList(cfg, NoteTscg(cfg, s, m[1]), true, now);
    }
  }

  lemma {:induction false} MessagesKeepListOpen(cfg: SysConf, s: Sys, ms: seq<Payload>, now: int)
    requires WellSized(cfg, s) && (forall m | m in ms :: WholeMessage(m)) && ListOpen(cfg, s)
    ensures ListOpen(cfg, HandleMessages(cfg, s, ms, now))
    decreases |ms|
  {
    if ms != [] && !s.crashed {
      MessageKeepsListOpen(cfg, s, ms[0], now);
      MessagesKeepListOpen(cfg, HandleMessage(cfg, s, ms[0], now), ms[1..], now);
    }
  }

  lemma TurnKeepsListOpen(cfg: SysConf, s: Sys, current: nat, now: int)
    requires WellSized(cfg, s) && ListOpen(cfg, s) && !s.crashed
    ensures ListOpen(cfg, CheckGi(cfg, s, current, now))
  {
    GiCompletedEmptiesList(cfg, s, false, now);
    if s.active.Some? {
      SendGiKeepsLists(cfg, ForgetReceived(s), s.active.value, now);
    }
    var s1 := CheckGiTimeout(cfg, s, current, now);
    assert ListOpen(cfg, s1);
    var s2 := s1.(sched := NewDay(cfg.schedule, s1.sched, current));
    if s2.active.Some? {
      SendGiKeepsLists(cfg, s2, s2.active.value, now);
    }
  }

  lemma StepKeepsListOpen(cfg: SysConf, s: Sys, e: Event)
    requires ListOpen(cfg, s)
    ensures ListOpen(cfg, Step(cfg, s, e))
  {
    if !s.crashed && Ready(cfg, s) && Concerns(s, e) {
      if e.GiTurn? {
        TurnKeepsListOpen(cfg, s, e.current, e.now);
      } else if e.Receive? && e.frame.INFO? {
        if Expressible(cfg.paths[e.i], e.frame) {
          FrameKeepsLists(cfg, s, e.i, e.frame, e.now);
          var (s1, ms) := AnswerInfo(cfg, s, e.i, e.frame, e.now);
          MessagesKeepListOpen(cfg, s1, ms, e.now);
        }
      } else {
        QuietEventsKeepLists(cfg, s, e);
      }
    }
  }

  lemma {:induction false} ListIsOpen(cfg: SysConf, current: nat, now: int, evs: seq<Event>)
    ensures ListOpen(cfg, Reached(cfg, current, now, evs))
    decreases |evs|
  {
    if evs != [] {
      ListIsOpen(cfg, current, now, evs[..|evs| - 1]);
      StepKeepsListOpen(cfg, Reached(cfg, current, now, evs[..|evs| - 1]), evs[|evs| - 1]);
    }
  }

  // ---------------------------------------------------------------- the messages of one frame

  /** A TSCG that brings the last expected address last. */
  predicate BringsLast(cfg: SysConf, m: Payload) {
    |m| == 6 && m[0] == Messages.TSCG_CODE && LastIsIn(cfg, GiResult.TscgReceived(cfg.tsAddresses, m[1]))
  }

  /** A GI is delayed, and there is no active path it could go to. */
  predicate Stranded(s: Sys) {
    s.active.None? && s.fledge.giInQueue
  }

  lemma MessageCrashIff(cfg: SysConf, s: Sys, m: Payload, now: int)
    requires WellSized(cfg, s) && WholeMessage(m) && ListOpen(cfg, s) && !s.crashed
    ensures var r := HandleMessage(cfg, s, m, now);
            && (r.crashed <==> Stranded(s) && BringsLast(cfg, m))
            && (!r.crashed ==> Stranded(r) == Stranded(s))
  {
    if m[0] == Messages.TSCE_CODE {
      RequestKeepsLists(cfg, s, now);
      StrandedIsNotAsked(cfg, s, now);
    } else if m[0] == Messages.TSCG_CODE {
      var t := GiResult.TscgReceived(cfg.tsAddresses, m[1]);
      assert LastIsIn(cfg, s.fledge.giReceived + t) <==> LastIsIn(cfg, t) by {
        assert t == [] ==> s.fledge.giReceived + t == s.fledge.giReceived;
      }
      EndCrashIff(cfg, NoteTscg(cfg, s, m[1]), now);
    }
  }

  lemma StrandedIsNotAsked(cfg: SysConf, s: Sys, now: int)
    requires WellSized(cfg, s)
    ensures Stranded(RequestGi(cfg, s, now)) == Stranded(s)
  {
  }

  lemma EndCrashIff(cfg: SysConf, s: Sys, now: int)
    requires WellSized(cfg, s) && !s.crashed
    ensures var r := GiCompleted(cfg, s, true, now);
            (r.crashed <==> Stranded(s)) && (!r.crashed ==> !Stranded(r) && !Stranded(s))
  {
  }

  lemma {:induction false} MessagesCrashIff(cfg: SysConf, s: Sys, ms: seq<Payload>, now: int)
    requires WellSized(cfg, s) && (forall m | m in ms :: WholeMessage(m)) && ListOpen(cfg, s) && !s.crashed
    ensures HandleMessages(cfg, s, ms, now).crashed
            <==> Stranded(s) && exists m | m in ms :: BringsLast(cfg, m)
    decreases |ms|
  {
    if ms != [] {
      var r := HandleMessage(cfg, s, ms[0], now);
      assert ms == [ms[0]] + ms[1..];
      MessageCrashIff(cfg, s, ms[0], now);
      MessageKeepsListOpen(cfg, s, ms[0], now);
      if r.crashed {
        assert ms[0] in ms && HandleMessages(cfg, r, ms[1..], now) == r;
      } else {
        MessagesCrashIff(cfg, r, ms[1..], now);
      }
    }
  }

  // ---------------------------------------------------------------- every run

  /** Read before the step: an information frame is handed up, on a path that may deliver, with a TSCG that
      brings the last expected address, while a GI is delayed and no path is active. */
  predicate CrashesOn(cfg: SysConf, s: Sys, e: Event)
    requires WellSized(cfg, s)
  {
    && e.Receive? && e.i < |s.paths| && e.frame.INFO? && Expressible(cfg.paths[e.i], e.frame)
    && CanExtract(s, e.i)
    && (e.frame.nr == s.paths[e.i].nrr || IsNRValid(s.paths[e.i].nrr, s.paths[e.i].ns, e.frame.nr))
    && Stranded(s)
    && exists m | m in Messages.Extract(cfg.paths[e.i].bulleReceive, e.frame.payload) :: BringsLast(cfg, m)
  }

  /** Main result. In every run a step uses the null active path if and only if that holds before it. */
  lemma CrashIff(cfg: SysConf, current: nat, now: int, evs: seq<Event>, e: Event)
    requires !Reached(cfg, current, now, evs).crashed
    ensures WellSized(cfg, Reached(cfg, current, now, evs))
    ensures var s := Reached(cfg, current, now, evs); Step(cfg, s, e).crashed <==> CrashesOn(cfg, s, e)
  {
    RunKeepsInv(cfg, current, now, evs);
    var s := Reached(cfg, current, now, evs);
    InvIsReady(cfg, s);
    if e.Receive? && e.frame.INFO? && e.i < |s.paths| && Expressible(cfg.paths[e.i], e.frame) {
      ListIsOpen(cfg, current, now, evs);
      FrameCrashIff(cfg, current, now, evs, e);
    } else {
      OnlyDeliveryCrashes(cfg, current, now, evs, e);
    }
  }

  lemma FrameCrashIff(cfg: SysConf, current: nat, now: int, evs: seq<Event>, e: Event)
    requires e.Receive? && e.frame.INFO? && e.i < |cfg.paths| && Expressible(cfg.paths[e.i], e.frame)
    requires var s := Reached(cfg, current, now, evs);
             SysInv(cfg, s) && Ready(cfg, s) && !s.crashed && ListOpen(cfg, s)
    ensures var s := Reached(cfg, current, now, evs); Step(cfg, s, e).crashed <==> CrashesOn(cfg, s, e)
  {
    var s := Reached(cfg, current, now, evs);
    var (s1, ms) := AnswerInfo(cfg, s, e.i, e.frame, e.now);
    HandedUpIff(cfg, current, now, evs, e.i, e.frame, e.now);
    ExclusiveDelivery(cfg, current, now, evs, e.i, e.i);
    FrameKeepsLists(cfg, s, e.i, e.frame, e.now);
    MessagesCrashIff(cfg, s1, ms, e.now);
    assert Stranded(s1) == Stranded(s);
  }
}
