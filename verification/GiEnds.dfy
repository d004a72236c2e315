/** Why a General Interrogation ends, and what that means for the report of a request that has just gone out. */
module GiEnds {
  import opened HnzTypes
  import opened GiLog
  import opened Link
  import opened LinkInvariants
  import opened HnzSystem
  import opened Arbitration
  import opened SystemInvariants
  import opened SystemFrames
  import opened Theorems
  import opened Scenarios
  import opened Crashes
  import GiResult
  import Messages

  /** A TSCG that starts at this block brings the last expected address last. */
  predicate Closing(cfg: SysConf, block: Byte) {
    LastIsIn(cfg, GiResult.TscgReceived(cfg.tsAddresses, block))
  }

  /** The two causes: such a TSCG was just handled, whether or not a GI runs; or all requests were sent. */
  predicate Cause(cfg: SysConf, log: seq<GiMark>) {
    || (log != [] && log[|log| - 1].Brought? && Closing(cfg, log[|log| - 1].block))
    || (SentSince(log) != 0 && SentSince(log) > cfg.giRepeatMax)
  }

  predicate CausesFit(cfg: SysConf, log: seq<GiMark>) {
    forall k | 0 <= k < |log| && log[k].GiEnded? :: Cause(cfg, log[..k])
  }

  lemma CausesStay(cfg: SysConf, log: seq<GiMark>, longer: seq<GiMark>)
    requires CausesFit(cfg, log) && NoEndBetween(log, longer)
    ensures CausesFit(cfg, longer)
  {
    forall k | 0 <= k < |longer| && longer[k].GiEnded? ensures Cause(cfg, longer[..k]) {
      assert k < |log| && longer[k] == log[k] && longer[..k] == log[..k];
    }
  }

  lemma EndFits(cfg: SysConf, log: seq<GiMark>, invalidated: seq<nat>)
    requires CausesFit(cfg, log) && Cause(cfg, log)
    ensures CausesFit(cfg, log + [GiEnded(invalidated)])
  {
    var longer := log + [GiEnded(invalidated)];
    forall k | 0 <= k < |longer| && longer[k].GiEnded? ensures Cause(cfg, longer[..k]) {
      assert longer[..k] == log[..k] && log[..|log|] == log;
    }
  }

  lemma GiCompletedKeepsCauses(cfg: SysConf, s: Sys, success: bool, now: int)
    requires WellSized(cfg, s) && CausesFit(cfg, s.giLog) && Cause(cfg, s.giLog)
    ensures CausesFit(cfg, GiCompleted(cfg, s, success, now).giLog)
  {
    var s1 := CloseGi(cfg, s, success);
    EndFits(cfg, s.giLog, GiResult.Unfiltered(cfg.tsAddresses, s.fledge.giReceived));
    if s1.active.Some? {
      SendGiKeepsLists(cfg, s1, s1.active.value, now);
      CausesStay(cfg, s1.giLog, SendGeneralInterrogation(cfg, s1, s1.active.value, now).giLog);
    }
  }

  lemma TscgKeepsCauses(cfg: SysConf, s: Sys, m: Payload, now: int)
    requires WellSized(cfg, s) && ListOpen(cfg, s) && !s.crashed && |m| == 6 && CausesFit(cfg, s.giLog)
    ensures CausesFit(cfg, HandleTscg(cfg, s, m, now).giLog)
  {
    var s1 := NoteTscg(cfg, s, m[1]);
    CausesStay(cfg, s.giLog, s1.giLog);
    if LastIsIn(cfg, s1.fledge.giReceived) {
      ClosingBlock(cfg, s.fledge.giReceived, GiResult.TscgReceived(cfg.tsAddresses, m[1]));
      GiCompletedKeepsCauses(cfg, s1, true, now);
    }
  }

  /** On a list that is not closed, the last expected address comes last only if the block brings it. */
  lemma ClosingBlock(cfg: SysConf, received: seq<nat>, t: seq<nat>)
    requires !LastIsIn(cfg, received)
    ensures LastIsIn(cfg, received + t) <==> LastIsIn(cfg, t)
  {
    if t == [] {
      assert received + t == received;
    }
  }

  lemma MessageKeepsCauses(cfg: SysConf, s: Sys, m: Payload, now: int)
    requires WellSized(cfg, s) && WholeMessage(m) && ListOpen(cfg, s) && !s.crashed && CausesFit(cfg, s.giLog)
    ensures CausesFit(cfg, HandleMessage(cfg, s, m, now).giLog)
  {
    if m[0] == Messages.TSCE_CODE {
      RequestKeepsLists(cfg, s, now);
      CausesStay(cfg, s.giLog, RequestGi(cfg, s, now).giLog);
    } else if m[0] == Messages.TSCG_CODE {
      TscgKeepsCauses(cfg, s, m, now);
    }
  }

  lemma {:induction false} MessagesKeepCauses(cfg: SysConf, s: Sys, ms: seq<Payload>, now: int)
    requires WellSized(cfg, s) && (forall m | m in ms :: WholeMessage(m)) && ListOpen(cfg, s) && CausesFit(cfg, s.giLog)
    ensures CausesFit(cfg, HandleMessages(cfg, s, ms, now).giLog)
    decreases |ms|
  {
    if ms != [] && !s.crashed {
      MessageKeepsListOpen(cfg, s, ms[0], now);
      MessageKeepsCauses(cfg, s, ms[0], now);
      MessagesKeepCauses(cfg, HandleMessage(cfg, s, ms[0], now), ms[1..], now);
    }
  }

  lemma TimeoutKeepsCauses(cfg: SysConf, s: Sys, current: nat, now: int)
    requires WellSized(cfg, s) && s.giRepeat == SentSince(s.giLog) && CausesFit(cfg, s.giLog)
    ensures CausesFit(cfg, CheckGiTimeout(cfg, s, current, now).giLog)
  {
    if s.giRepeat != 0 && s.giStart + cfg.giTimeMax < current {
      if s.giRepeat > cfg.giRepeatMax {
        GiCompletedKeepsCauses(cfg, s, false, now);
      } else {
        var s1 := ForgetReceived(s);
        CausesStay(cfg, s.giLog, s1.giLog);
        if s1.active.Some? {
          SendGiKeepsLists(cfg, s1, s1.active.value, now);
          CausesStay(cfg, s1.giLog, SendGeneralInterrogation(cfg, s1, s1.active.value, now).giLog);
        }
      }
    }
  }

  lemma TurnKeepsCauses(cfg: SysConf, s: Sys, current: nat, now: int)
    requires WellSized(cfg, s) && s.giRepeat == SentSince(s.giLog) && CausesFit(cfg, s.giLog)
    ensures CausesFit(cfg, CheckGi(cfg, s, current, now).giLog)
  {
    TimeoutKeepsCauses(cfg, s, current, now);
    var s1 := CheckGiTimeout(cfg, s, current, now);
    var s2 := s1.(sched := NewDay(cfg.schedule, s1.sched, current));
    if s2.active.Some? {
      SendGiKeepsLists(cfg, s2, s2.active.value, now);
      CausesStay(cfg, s2.giLog, SendGeneralInterrogation(cfg, s2, s2.active.value, now).giLog);
    }
  }

  lemma StepKeepsCauses(cfg: SysConf, s: Sys, e: Event)
    requires ListOpen(cfg, s) && s.giRepeat == SentSince(s.giLog) && CausesFit(cfg, s.giLog)
    ensures CausesFit(cfg, Step(cfg, s, e).giLog)
  {
    if !s.crashed && Ready(cfg, s) && Concerns(s, e) {
      if e.GiTurn? {
        TurnKeepsCauses(cfg, s, e.current, e.now);
      } else if e.Receive? && e.frame.INFO? {
        if Expressible(cfg.paths[e.i], e.frame) {
          FrameKeepsLists(cfg, s, e.i, e.frame, e.now);
          var (s1, ms) := AnswerInfo(cfg, s, e.i, e.frame, e.now);
          CausesStay(cfg, s.giLog, s1.giLog);
          MessagesKeepCauses(cfg, s1, ms, e.now);
        }
      } else {
        QuietEventsKeepLists(cfg, s, e);
        CausesStay(cfg, s.giLog, Effect(cfg, s, e).giLog);
      }
    }
  }

  /** In every run every end of a GI has one of the two causes. */
  lemma {:induction false} EndsHaveCauses(cfg: SysConf, current: nat, now: int, evs: seq<Event>)
    ensures CausesFit(cfg, Reached(cfg, current, now, evs).giLog)
    decreases |evs|
  {
    if evs != [] {
      var init := evs[..|evs| - 1];
      EndsHaveCauses(cfg, current, now, init);
      ListIsOpen(cfg, current, now, init);
      RunKeepsInv(cfg, current, now, init);
      StepKeepsCauses(cfg, Reached(cfg, current, now, init), evs[|evs| - 1]);
    }
  }

  // ---------------------------------------------------------------- a request has gone out

  /** In the continuation `more` the k-th mark is the end of a GI, with nothing but TSCGs since the state
      reached by `evs`. */
  predicate EndAfter(cfg: SysConf, current: nat, now: int, evs: seq<Event>, more: seq<Event>, k: nat) {
    var log, later := Reached(cfg, current, now, evs).giLog, Reached(cfg, current, now, evs + more).giLog;
    k < |later| && later[k].GiEnded? && OnlyBrings(log, later[..k])
  }

  /** Whatever happens next, the report of the request will be exact. */
  ghost predicate EndsRight(cfg: SysConf, current: nat, now: int, evs: seq<Event>) {
    forall more: seq<Event>, k: nat | EndAfter(cfg, current, now, evs, more, k) ::
      Exact(cfg.tsAddresses, Reached(cfg, current, now, evs + more).giLog[..k])
  }

  /** Read from the state and the configuration: every TSCG that can end the GI brings the whole list again, and
      where the GI can fail without any TSCG the list is empty. */
  ghost predicate ReadsClean(cfg: SysConf, s: Sys) {
    && (forall b: Byte, a | Closing(cfg, b) && a in s.fledge.giReceived :: a in GiResult.TscgReceived(cfg.tsAddresses, b))
    && (s.giRepeat != 0 && s.giRepeat > cfg.giRepeatMax ==> s.fledge.giReceived == [])
  }

  /** Main result, read when a request has gone out, in every run: its report will be exact, whatever end follows
      it, if and only if that holds. */
  lemma RequestIsCleanIff(cfg: SysConf, current: nat, now: int, evs: seq<Event>)
    requires var s := Reached(cfg, current, now, evs);
             !s.crashed && s.active.Some? && s.giLog != [] && s.giLog[|s.giLog| - 1].Requested?
    ensures EndsRight(cfg, current, now, evs) <==> ReadsClean(cfg, Reached(cfg, current, now, evs))
  {
    var s := Reached(cfg, current, now, evs);
    if ReadsClean(cfg, s) {
      forall more: seq<Event>, k: nat | EndAfter(cfg, current, now, evs, more, k)
        ensures Exact(cfg.tsAddresses, Reached(cfg, current, now, evs + more).giLog[..k])
      {
        CleanEndsRight(cfg, current, now, evs, more, k);
      }
    } else {
      NotCleanEndsWrong(cfg, current, now, evs);
    }
  }

  lemma CleanEndsRight(cfg: SysConf, current: nat, now: int, evs: seq<Event>, more: seq<Event>, k: nat)
    requires var s := Reached(cfg, current, now, evs); s.giLog != [] && s.giLog[|s.giLog| - 1].Requested?
    requires ReadsClean(cfg, Reached(cfg, current, now, evs)) && EndAfter(cfg, current, now, evs, more, k)
    ensures Exact(cfg.tsAddresses, Reached(cfg, current, now, evs + more).giLog[..k])
  {
    var s := Reached(cfg, current, now, evs);
    var end := Reached(cfg, current, now, evs + more).giLog[..k];
    RunKeepsInv(cfg, current, now, evs);
    EndsHaveCauses(cfg, current, now, evs + more);
    OnlyBringsKeeps(cfg.tsAddresses, s.giLog, end);
    ExactIff(cfg.tsAddresses, end);
    CleanEnd(cfg, s, end);
  }

  lemma CleanEnd(cfg: SysConf, s: Sys, end: seq<GiMark>)
    requires s.giLog != [] && s.giLog[|s.giLog| - 1].Requested? && ReadsClean(cfg, s) && OnlyBrings(s.giLog, end)
    requires s.fledge.giReceived == ReceivedBy(cfg.tsAddresses, s.giLog) && s.giRepeat == SentSince(s.giLog)
    requires SentSince(end) == SentSince(s.giLog) && Cause(cfg, end)
    requires InAttempt(end) && Stale(cfg.tsAddresses, end) == Stale(cfg.tsAddresses, s.giLog)
    ensures ListOfRequest(cfg.tsAddresses, end)
  {
    assert Stale(cfg.tsAddresses, s.giLog) == s.fledge.giReceived;
    var last := end[|end| - 1];
    if last.Brought? && Closing(cfg, last.block) {
      forall a | a in Stale(cfg.tsAddresses, end) ensures a in BroughtSince(cfg.tsAddresses, end) {
        assert a in GiResult.TscgReceived(cfg.tsAddresses, last.block);
      }
    }
  }

  /** One frame with a closing TSCG ends the GI. */
  lemma ClosingEnds(cfg: SysConf, current: nat, now: int, evs: seq<Event>, block: Byte) returns (e: Event)
    requires var s := Reached(cfg, current, now, evs); !s.crashed && s.active.Some?
    requires Closing(cfg, block)
    ensures var log := Reached(cfg, current, now, evs).giLog;
            && EndAfter(cfg, current, now, evs, [e], |log| + 1)
            && Reached(cfg, current, now, evs + [e]).giLog[..|log| + 1] == log + [Brought(block)]
  {
    var s := Reached(cfg, current, now, evs);
    var i := s.active.value;
    assert Ready(cfg, s) && Listening(s, i) by {
      RunKeepsInv(cfg, current, now, evs);
      InvIsReady(cfg, s);
      ActiveListens(cfg, s);
    }
    ListIsOpen(cfg, current, now, evs);
    e := Receive(i, INFO(0, s.paths[i].nrr, false, Tscg(block)), 0);
    ClosingTscgEnds(cfg, s, i, block);
    Continues(cfg, current, now, evs, e);
  }

  lemma ClosingTscgEnds(cfg: SysConf, s: Sys, i: nat, block: Byte)
    requires Ready(cfg, s) && Listening(s, i) && ListOpen(cfg, s) && Closing(cfg, block)
    ensures var log := Step(cfg, s, Receive(i, INFO(0, s.paths[i].nrr, false, Tscg(block)), 0)).giLog;
            |log| >= |s.giLog| + 2 && log[..|s.giLog| + 1] == s.giLog + [Brought(block)] && log[|s.giLog| + 1].GiEnded?
  {
    var s1 := TscgArrives(cfg, s, i, 0, false, block, 0);
    ClosingBlock(cfg, s.fledge.giReceived, GiResult.TscgReceived(cfg.tsAddresses, block));
    EndIsMarked(cfg, NoteTscg(cfg, s1, block), true, 0);
  }

  lemma ActiveListens(cfg: SysConf, s: Sys)
    requires SysInv(cfg, s) && !s.crashed && s.active.Some?
    ensures Listening(s, s.active.value)
  {
    var p := s.paths[s.active.value];
    assert Abstracts(p) && Numbered(p);
  }

  lemma EndIsMarked(cfg: SysConf, s: Sys, success: bool, now: int)
    requires WellSized(cfg, s)
    ensures var log := GiCompleted(cfg, s, success, now).giLog;
            |log| > |s.giLog| && log[..|s.giLog|] == s.giLog && log[|s.giLog|].GiEnded?
  {
    var s1 := CloseGi(cfg, s, success);
    if s1.active.Some? {
      SendGiKeepsLists(cfg, s1, s1.active.value, now);
    }
  }

  /** Late enough, a turn of the supervisor ends a GI that has sent all its requests. */
  lemma TimeoutEnds(cfg: SysConf, current: nat, now: int, evs: seq<Event>) returns (e: Event)
    requires var s := Reached(cfg, current, now, evs);
             !s.crashed && s.active.Some? && s.giRepeat != 0 && s.giRepeat > cfg.giRepeatMax
    ensures var log := Reached(cfg, current, now, evs).giLog;
            && EndAfter(cfg, current, now, evs, [e], |log|)
            && Reached(cfg, current, now, evs + [e]).giLog[..|log|] == log
  {
    var s := Reached(cfg, current, now, evs);
    var due := s.giStart + cfg.giTimeMax + 1;
    var at: nat := if due >= 0 then due else 0;
    e := GiTurn(at, 0);
    assert Ready(cfg, s) by {
      RunKeepsInv(cfg, current, now, evs);
      InvIsReady(cfg, s);
    }
    assert Step(cfg, s, e) == CheckGi(cfg, s, at, 0);
    LateTurnEnds(cfg, s, at);
    Continues(cfg, current, now, evs, e);
  }

  lemma LateTurnEnds(cfg: SysConf, s: Sys, at: nat)
    requires WellSized(cfg, s) && s.giRepeat != 0 && s.giRepeat > cfg.giRepeatMax && s.giStart + cfg.giTimeMax < at
    ensures var log := CheckGi(cfg, s, at, 0).giLog;
            |log| > |s.giLog| && log[..|s.giLog|] == s.giLog && log[|s.giLog|].GiEnded?
  {
    EndIsMarked(cfg, s, false, 0);
    TurnExtends(cfg, s, at);
  }

  lemma TurnExtends(cfg: SysConf, s: Sys, at: nat)
    requires WellSized(cfg, s)
    ensures CheckGiTimeout(cfg, s, at, 0).giLog <= CheckGi(cfg, s, at, 0).giLog
  {
    var s1 := CheckGiTimeout(cfg, s, at, 0);
    var s2 := s1.(sched := NewDay(cfg.schedule, s1.sched, at));
    if s2.active.Some? {
      SendGiKeepsLists(cfg, s2, s2.active.value, 0);
    }
  }

  lemma NotCleanEndsWrong(cfg: SysConf, current: nat, now: int, evs: seq<Event>)
    requires var s := Reached(cfg, current, now, evs);
             !s.crashed && s.active.Some? && s.giLog != [] && s.giLog[|s.giLog| - 1].Requested?
    requires !ReadsClean(cfg, Reached(cfg, current, now, evs))
    ensures !EndsRight(cfg, current, now, evs)
  {
    var s := Reached(cfg, current, now, evs);
    assert s.fledge.giReceived == ReceivedBy(cfg.tsAddresses, s.giLog) by {
      RunKeepsInv(cfg, current, now, evs);
    }
    if s.giRepeat != 0 && s.giRepeat > cfg.giRepeatMax && s.fledge.giReceived != [] {
      var e := TimeoutEnds(cfg, current, now, evs);
      NoBlockIsWrong(cfg, s.giLog);
    } else {
      var b: Byte, a :| Closing(cfg, b) && a in s.fledge.giReceived && a !in GiResult.TscgReceived(cfg.tsAddresses, b);
      var e := ClosingEnds(cfg, current, now, evs, b);
      OneBlockIsWrong(cfg, s.giLog, b, a);
    }
  }

  lemma NoBlockIsWrong(cfg: SysConf, log: seq<GiMark>)
    requires log != [] && log[|log| - 1].Requested? && ReceivedBy(cfg.tsAddresses, log) != []
    ensures !Exact(cfg.tsAddresses, log)
  {
    ExactIff(cfg.tsAddresses, log);
    assert ReceivedBy(cfg.tsAddresses, log)[0] in Stale(cfg.tsAddresses, log);
  }

  lemma OneBlockIsWrong(cfg: SysConf, log: seq<GiMark>, b: Byte, a: nat)
    requires log != [] && log[|log| - 1].Requested?
    requires a in ReceivedBy(cfg.tsAddresses, log) && a !in GiResult.TscgReceived(cfg.tsAddresses, b)
    ensures !Exact(cfg.tsAddresses, log + [Brought(b)])
  {
    OneBlock(cfg.tsAddresses, log, b);
    ExactIff(cfg.tsAddresses, log + [Brought(b)]);
    assert a in Stale(cfg.tsAddresses, log + [Brought(b)]);
  }

  lemma OneBlock(configured: seq<nat>, log: seq<GiMark>, b: Byte)
    requires log != [] && log[|log| - 1].Requested?
    ensures var all := log + [Brought(b)];
            && InAttempt(all) && Stale(configured, all) == ReceivedBy(configured, log)
            && BroughtSince(configured, all) == GiResult.TscgReceived(configured, b)
  {
    var all := log + [Brought(b)];
    var t := GiResult.TscgReceived(configured, b);
    RequestStarts(configured, log);
    assert all[..|all| - 1] == log && all[|all| - 1] == Brought(b);
    assert BroughtSince(configured, all) == BroughtSince(configured, log) + t == t;
  }

  lemma RequestStarts(configured: seq<nat>, log: seq<GiMark>)
    requires log != [] && log[|log| - 1].Requested?
    ensures InAttempt(log) && Stale(configured, log) == ReceivedBy(configured, log) && BroughtSince(configured, log) == []
  {
  }

}
