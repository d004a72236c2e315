/** Is the report at the end of a General Interrogation the result of that GI? */
module GiReports {
  import opened HnzTypes
  import opened GiLog
  import opened Link
  import opened HnzSystem
  import opened SystemInvariants
  import opened Theorems
  import opened Scenarios
  import GiResult

  /** Main result. For every end of a GI in every run: the addresses sent as invalid are exactly the configured
      ones the last request did not bring, if and only if the list of received addresses held what that request
      brought. It fails in two ways: addresses from before the request that it did not bring, or, at an end
      without a request since the previous one, addresses that it brought before that one only. */
  lemma ReportIsExactIff(cfg: SysConf, current: nat, now: int, evs: seq<Event>, k: nat)
    requires var log := Reached(cfg, current, now, evs).giLog; k < |log| && log[k].GiEnded?
    ensures var log := Reached(cfg, current, now, evs).giLog;
            (forall a :: a in log[k].invalidated <==> a in cfg.tsAddresses && a !in BroughtSince(cfg.tsAddresses, log[..k]))
            <==> ListOfRequest(cfg.tsAddresses, log[..k])
    ensures var s := Reached(cfg, current, now, evs); s.fledge.invalidated == LastReport(s.giLog)
  {
    RunKeepsInv(cfg, current, now, evs);
    var log := Reached(cfg, current, now, evs).giLog;
    ReportAt(cfg.tsAddresses, log, k);
    ExactIff(cfg.tsAddresses, log[..k]);
  }

  /** A repetition always goes out with an empty list. */
  lemma RepetitionIsClean(configured: seq<nat>, log: seq<GiMark>, sent: bool)
    ensures var all := log + [ListCleared] + [Requested(sent)]; InAttempt(all) && Stale(configured, all) == []
  {
    var all := log + [ListCleared] + [Requested(sent)];
    assert all[..|all| - 1] == log + [ListCleared];
  }

  // ---------------------------------------------------------------- frames that bring TSCGs

  lemma TscgIsNoted(cfg: SysConf, s: Sys, i: nat, t: int, ns: int, poll: bool, block: Byte)
    requires Ready(cfg, s) && Lone(s, i, t) && 0 <= ns < 8
    requires !LastIsIn(cfg, s.fledge.giReceived + GiResult.TscgReceived(cfg.tsAddresses, block))
    ensures var r := Step(cfg, s, Receive(i, INFO(ns, 0, poll, Tscg(block)), t));
            && Lone(r, i, t) && r.paths[i].sent == s.paths[i].sent
            && r.fledge.giInQueue == s.fledge.giInQueue
            && (s.fledge.giStatus == GiIdle ==> r.fledge.giStatus == GiIdle)
            && r.fledge.giReceived == s.fledge.giReceived + GiResult.TscgReceived(cfg.tsAddresses, block)
            && r.giLog == s.giLog + [Brought(block)]
  {
    var s1 := TscgArrives(cfg, s, i, ns, poll, block, t);
  }

  /** The TSCG ends a GI, whether or not one runs. */
  lemma TscgEnds(cfg: SysConf, s: Sys, i: nat, t: int, ns: int, poll: bool, block: Byte)
    requires Ready(cfg, s) && Lone(s, i, t) && 0 <= ns < 8 && !s.fledge.giInQueue
    requires LastIsIn(cfg, s.fledge.giReceived + GiResult.TscgReceived(cfg.tsAddresses, block))
    ensures var r := Step(cfg, s, Receive(i, INFO(ns, 0, poll, Tscg(block)), t));
            && Lone(r, i, t) && !r.fledge.giInQueue && r.fledge.giStatus == GiFinished && r.fledge.giReceived == []
            && r.fledge.invalidated
               == GiResult.Unfiltered(cfg.tsAddresses, s.fledge.giReceived + GiResult.TscgReceived(cfg.tsAddresses, block))
            && r.giLog == s.giLog + [Brought(block)] + [GiEnded(r.fledge.invalidated)]
  {
    var s1 := TscgArrives(cfg, s, i, ns, poll, block, t);
  }

  lemma RunNotes(cfg: SysConf, evs: seq<Event>, i: nat, t: int, ns: int, poll: bool, block: Byte)
    requires Lone(Reached(cfg, 0, 0, evs), i, t) && 0 <= ns < 8
    requires !LastIsIn(cfg, Reached(cfg, 0, 0, evs).fledge.giReceived + GiResult.TscgReceived(cfg.tsAddresses, block))
    ensures var s := Reached(cfg, 0, 0, evs);
            var r := Reached(cfg, 0, 0, evs + [Receive(i, INFO(ns, 0, poll, Tscg(block)), t)]);
            && Lone(r, i, t) && r.paths[i].sent == s.paths[i].sent
            && r.fledge.giInQueue == s.fledge.giInQueue
            && (s.fledge.giStatus == GiIdle ==> r.fledge.giStatus == GiIdle)
            && r.fledge.giReceived == s.fledge.giReceived + GiResult.TscgReceived(cfg.tsAddresses, block)
            && r.giLog == s.giLog + [Brought(block)]
  {
    ReachedIsReady(cfg, evs);
    RunThen(cfg, evs, Receive(i, INFO(ns, 0, poll, Tscg(block)), t));
    TscgIsNoted(cfg, Reached(cfg, 0, 0, evs), i, t, ns, poll, block);
  }

  lemma RunEnds(cfg: SysConf, evs: seq<Event>, i: nat, t: int, ns: int, poll: bool, block: Byte)
    requires Lone(Reached(cfg, 0, 0, evs), i, t) && 0 <= ns < 8 && !Reached(cfg, 0, 0, evs).fledge.giInQueue
    requires LastIsIn(cfg, GiResult.TscgReceived(cfg.tsAddresses, block))
    ensures var s := Reached(cfg, 0, 0, evs);
            var r := Reached(cfg, 0, 0, evs + [Receive(i, INFO(ns, 0, poll, Tscg(block)), t)]);
            && Lone(r, i, t) && !r.fledge.giInQueue && r.fledge.giStatus == GiFinished && r.fledge.giReceived == []
            && r.fledge.invalidated
               == GiResult.Unfiltered(cfg.tsAddresses, s.fledge.giReceived + GiResult.TscgReceived(cfg.tsAddresses, block))
            && r.giLog == s.giLog + [Brought(block)] + [GiEnded(r.fledge.invalidated)]
  {
    ReachedIsReady(cfg, evs);
    RunThen(cfg, evs, Receive(i, INFO(ns, 0, poll, Tscg(block)), t));
    LastOfSum(cfg, Reached(cfg, 0, 0, evs).fledge.giReceived, GiResult.TscgReceived(cfg.tsAddresses, block));
    TscgEnds(cfg, Reached(cfg, 0, 0, evs), i, t, ns, poll, block);
  }

  lemma RunRequests(cfg: SysConf, evs: seq<Event>, i: nat, t: int)
    requires Lone(Reached(cfg, 0, 0, evs), i, t) && Reached(cfg, 0, 0, evs).paths[i].sent == []
    requires i < |cfg.paths| && cfg.paths[i].ratio >= 1 && Reached(cfg, 0, 0, evs).fledge.giStatus == GiIdle
    ensures var s, r := Reached(cfg, 0, 0, evs), Reached(cfg, 0, 0, evs + [GiRequest(t)]);
            && Lone(r, i, t) && r.fledge == s.fledge.(giStatus := GiStarted) && r.giLog == s.giLog + [Requested(true)]
  {
    ReachedIsReady(cfg, evs);
    RunThen(cfg, evs, GiRequest(t));
    GiGoesOut(cfg, Reached(cfg, 0, 0, evs), i, t, t);
  }

  /** An opened path, seen by what follows. */
  lemma OpenedLone(cfg: SysConf, i: nat) returns (s: Sys)
    requires i < |cfg.paths|
    ensures s == Reached(cfg, 0, 0, OpeningEvents(cfg, i)) && Ready(cfg, s)
    ensures Lone(s, i, OpeningTime(cfg, i)) && s.paths[i].sent == [] && s.giLog == []
    ensures s.fledge.giStatus == GiIdle && !s.fledge.giInQueue && s.fledge.giReceived == []
  {
    s := Opened(cfg, i);
    ReachedIsReady(cfg, OpeningEvents(cfg, i));
    OpenedListIsEmpty(cfg, s, i);
  }

  lemma OpenedListIsEmpty(cfg: SysConf, s: Sys, i: nat)
    requires Opening(cfg, s, i, Connected)
    ensures s.fledge.giReceived == []
  {
  }

  lemma LastOfSum(cfg: SysConf, a: seq<nat>, b: seq<nat>)
    requires LastIsIn(cfg, b)
    ensures LastIsIn(cfg, a + b)
  {
  }

  /** Two blocks: the TSCG of `other` brings address a and does not end a GI, the one of `closing` ends it and does
      not bring a. */
  predicate Pair(cfg: SysConf, other: Byte, closing: Byte, a: nat) {
    && !LastIsIn(cfg, GiResult.TscgReceived(cfg.tsAddresses, other))
    && LastIsIn(cfg, GiResult.TscgReceived(cfg.tsAddresses, closing))
    && a in GiResult.TscgReceived(cfg.tsAddresses, other)
    && a !in GiResult.TscgReceived(cfg.tsAddresses, closing)
  }

  // ---------------------------------------------------------------- an address that is not reported

  /** TSCG of one block outside any GI, then a GI whose answer is the TSCG of another block. */
  function StaleEvents(cfg: SysConf, i: nat, early: Byte, answer: Byte): seq<Event>
    requires i < |cfg.paths|
  {
    var t := OpeningTime(cfg, i);
    OpeningEvents(cfg, i) + [Receive(i, INFO(0, 0, false, Tscg(early)), t)] + [GiRequest(t)]
    + [Receive(i, INFO(1, 0, false, Tscg(answer)), t)]
  }

  lemma StaleRequest(cfg: SysConf, i: nat, early: Byte)
    requires i < |cfg.paths| && cfg.paths[i].ratio >= 1
    requires !LastIsIn(cfg, GiResult.TscgReceived(cfg.tsAddresses, early))
    ensures var t := OpeningTime(cfg, i);
            Noted(cfg, Reached(cfg, 0, 0, OpeningEvents(cfg, i) + [Receive(i, INFO(0, 0, false, Tscg(early)), t)]),
                  i, t, early)
  {
    var s0 := OpenedLone(cfg, i);
    FirstNote(cfg, OpeningEvents(cfg, i), i, OpeningTime(cfg, i), early);
  }

  /** Path i is open, no GI was requested, and one TSCG was handled. */
  predicate Noted(cfg: SysConf, s: Sys, i: nat, t: int, early: Byte) {
    && Lone(s, i, t) && s.paths[i].sent == [] && s.fledge.giStatus == GiIdle && !s.fledge.giInQueue
    && s.fledge.giReceived == GiResult.TscgReceived(cfg.tsAddresses, early) && s.giLog == [Brought(early)]
  }

  lemma FirstNote(cfg: SysConf, evs: seq<Event>, i: nat, t: int, early: Byte)
    requires !LastIsIn(cfg, GiResult.TscgReceived(cfg.tsAddresses, early))
    requires var s := Reached(cfg, 0, 0, evs);
             && Lone(s, i, t) && s.paths[i].sent == [] && s.giLog == []
             && s.fledge.giStatus == GiIdle && !s.fledge.giInQueue && s.fledge.giReceived == []
    ensures Noted(cfg, Reached(cfg, 0, 0, evs + [Receive(i, INFO(0, 0, false, Tscg(early)), t)]), i, t, early)
  {
    var brought := GiResult.TscgReceived(cfg.tsAddresses, early);
    assert [] + brought == brought && [] + [Brought(early)] == [Brought(early)];
    RunNotes(cfg, evs, i, t, 0, false, early);
  }

  lemma StaleReached(cfg: SysConf, i: nat, early: Byte, answer: Byte)
    requires i < |cfg.paths| && cfg.paths[i].ratio >= 1
    requires !LastIsIn(cfg, GiResult.TscgReceived(cfg.tsAddresses, early))
    requires LastIsIn(cfg, GiResult.TscgReceived(cfg.tsAddresses, answer))
    ensures var r := Reached(cfg, 0, 0, StaleEvents(cfg, i, early, answer));
            && r.fledge.giStatus == GiFinished
            && r.giLog == [Brought(early), Requested(true), Brought(answer), GiEnded(r.fledge.invalidated)]
  {
    var t := OpeningTime(cfg, i);
    var evs := OpeningEvents(cfg, i) + [Receive(i, INFO(0, 0, false, Tscg(early)), t)] + [GiRequest(t)];
    StaleAsked(cfg, i, early);
    RunEnds(cfg, evs, i, t, 1, false, answer);
  }

  lemma StaleAsked(cfg: SysConf, i: nat, early: Byte)
    requires i < |cfg.paths| && cfg.paths[i].ratio >= 1
    requires !LastIsIn(cfg, GiResult.TscgReceived(cfg.tsAddresses, early))
    ensures var t := OpeningTime(cfg, i);
            var r := Reached(cfg, 0, 0, OpeningEvents(cfg, i) + [Receive(i, INFO(0, 0, false, Tscg(early)), t)]
                                        + [GiRequest(t)]);
            Lone(r, i, t) && !r.fledge.giInQueue && r.giLog == [Brought(early), Requested(true)]
  {
    var t := OpeningTime(cfg, i);
    StaleRequest(cfg, i, early);
    RunRequests(cfg, OpeningEvents(cfg, i) + [Receive(i, INFO(0, 0, false, Tscg(early)), t)], i, t);
  }

  lemma StaleLog(configured: seq<nat>, early: Byte, answer: Byte)
    ensures BroughtSince(configured, [Brought(early), Requested(true), Brought(answer)])
            == GiResult.TscgReceived(configured, answer)
  {
    var log := [Brought(early), Requested(true), Brought(answer)];
    assert log[..2] == [Brought(early), Requested(true)];
    assert BroughtSince(configured, [Brought(early), Requested(true)]) == [];
    assert [] + GiResult.TscgReceived(configured, answer) == GiResult.TscgReceived(configured, answer);
  }

  /** The law "the report is the result of the GI" fails in every configuration with such a pair of blocks: an
      address received once outside any GI counts for the next one, which ends FINISHED without ever having
      brought it. */
  lemma StaleAddressIsNotReported(cfg: SysConf, i: nat, early: Byte, answer: Byte, a: nat)
    requires i < |cfg.paths| && cfg.paths[i].ratio >= 1 && Pair(cfg, early, answer, a)
    ensures var r := Reached(cfg, 0, 0, StaleEvents(cfg, i, early, answer));
            && r.fledge.giStatus == GiFinished && |r.giLog| == 4 && r.giLog[3] == GiEnded(r.fledge.invalidated)
            && a in cfg.tsAddresses && a !in BroughtSince(cfg.tsAddresses, r.giLog[..3])
            && a !in r.fledge.invalidated
  {
    StaleReached(cfg, i, early, answer);
    StaleLog(cfg.tsAddresses, early, answer);
    var evs := StaleEvents(cfg, i, early, answer);
    RunKeepsInv(cfg, 0, 0, evs);
    var log := Reached(cfg, 0, 0, evs).giLog;
    ReportAt(cfg.tsAddresses, log, 3);
    assert log[..3] == [Brought(early), Requested(true), Brought(answer)];
    StaleIsReceived(cfg.tsAddresses, early, answer);
    GiResult.ReceivedOrInvalid(cfg.tsAddresses, ReceivedBy(cfg.tsAddresses, log[..3]), a);
  }

  lemma StaleIsReceived(configured: seq<nat>, early: Byte, answer: Byte)
    ensures forall a | a in GiResult.TscgReceived(configured, early) ::
              a in ReceivedBy(configured, [Brought(early), Requested(true), Brought(answer)])
  {
    var log := [Brought(early), Requested(true), Brought(answer)];
    assert log[..2] == [Brought(early), Requested(true)] && log[..2][..1] == [Brought(early)];
    assert ReceivedBy(configured, [Brought(early)]) == [] + GiResult.TscgReceived(configured, early);
    assert ReceivedBy(configured, log[..2]) == ReceivedBy(configured, log[..2][..1]);
    assert ReceivedBy(configured, log) == ReceivedBy(configured, log[..2]) + GiResult.TscgReceived(configured, answer);
  }

  // ---------------------------------------------------------------- an address that is reported all the same

  /** A GI answered by two TSCGs, whose last frame the peer repeats, with the poll bit. */
  function RepeatedEvents(cfg: SysConf, i: nat, first: Byte, last: Byte): seq<Event>
    requires i < |cfg.paths|
  {
    var t := OpeningTime(cfg, i);
    AnsweredEvents(cfg, i, first, last) + [Receive(i, INFO(1, 0, true, Tscg(last)), t)]
  }

  function AnsweredEvents(cfg: SysConf, i: nat, first: Byte, last: Byte): seq<Event>
    requires i < |cfg.paths|
  {
    var t := OpeningTime(cfg, i);
    OpeningEvents(cfg, i) + [GiRequest(t)] + [Receive(i, INFO(0, 0, false, Tscg(first)), t)]
    + [Receive(i, INFO(1, 0, false, Tscg(last)), t)]
  }

  lemma FirstAnswer(cfg: SysConf, i: nat, first: Byte)
    requires i < |cfg.paths| && cfg.paths[i].ratio >= 1
    requires !LastIsIn(cfg, GiResult.TscgReceived(cfg.tsAddresses, first))
    ensures var t := OpeningTime(cfg, i);
            var s := Reached(cfg, 0, 0, OpeningEvents(cfg, i) + [GiRequest(t)]
                                        + [Receive(i, INFO(0, 0, false, Tscg(first)), t)]);
            && Lone(s, i, t) && !s.fledge.giInQueue
            && s.fledge.giReceived == GiResult.TscgReceived(cfg.tsAddresses, first)
            && s.giLog == [Requested(true), Brought(first)]
  {
    var t := OpeningTime(cfg, i);
    var evs := OpeningEvents(cfg, i) + [GiRequest(t)];
    var s0 := OpenedLone(cfg, i);
    RunRequests(cfg, OpeningEvents(cfg, i), i, t);
    var brought := GiResult.TscgReceived(cfg.tsAddresses, first);
    assert [] + brought == brought && [] + [Requested(true)] == [Requested(true)];
    RunNotes(cfg, evs, i, t, 0, false, first);
  }

  lemma AnsweredReached(cfg: SysConf, i: nat, first: Byte, last: Byte)
    requires i < |cfg.paths| && cfg.paths[i].ratio >= 1
    requires !LastIsIn(cfg, GiResult.TscgReceived(cfg.tsAddresses, first))
    requires LastIsIn(cfg, GiResult.TscgReceived(cfg.tsAddresses, last))
    ensures var r := Reached(cfg, 0, 0, AnsweredEvents(cfg, i, first, last));
            var ts := cfg.tsAddresses;
            && Lone(r, i, OpeningTime(cfg, i)) && !r.fledge.giInQueue && r.fledge.giReceived == []
            && r.fledge.giStatus == GiFinished
            && r.fledge.invalidated
               == GiResult.Unfiltered(ts, GiResult.TscgReceived(ts, first) + GiResult.TscgReceived(ts, last))
            && r.giLog == [Requested(true), Brought(first), Brought(last), GiEnded(r.fledge.invalidated)]
  {
    var t := OpeningTime(cfg, i);
    var evs := OpeningEvents(cfg, i) + [GiRequest(t)] + [Receive(i, INFO(0, 0, false, Tscg(first)), t)];
    FirstAnswer(cfg, i, first);
    RunEnds(cfg, evs, i, t, 1, false, last);
  }

  /** The second way the law fails, in the same configurations. The only request brought both blocks and its GI
      ended FINISHED with both received; the repeated last frame ends a GI once more, and reports as invalid the
      address of the other block. */
  lemma RepeatedAnswerIsFalseAlarm(cfg: SysConf, i: nat, first: Byte, last: Byte, a: nat)
    requires i < |cfg.paths| && cfg.paths[i].ratio >= 1 && Pair(cfg, first, last, a)
    ensures var s := Reached(cfg, 0, 0, AnsweredEvents(cfg, i, first, last));
            s.fledge.giStatus == GiFinished && a !in s.fledge.invalidated
    ensures var r := Reached(cfg, 0, 0, RepeatedEvents(cfg, i, first, last));
            && r.fledge.giStatus == GiFinished && |r.giLog| == 6 && r.giLog[5] == GiEnded(r.fledge.invalidated)
            && a in BroughtSince(cfg.tsAddresses, r.giLog[..5])
            && a in r.fledge.invalidated
  {
    var t := OpeningTime(cfg, i);
    var evs := AnsweredEvents(cfg, i, first, last);
    var s := Reached(cfg, 0, 0, evs);
    var ts := cfg.tsAddresses;
    var one, two := GiResult.TscgReceived(ts, first), GiResult.TscgReceived(ts, last);
    AnsweredReached(cfg, i, first, last);
    GiResult.ReceivedOrInvalid(ts, one + two, a);
    assert [] + two == two;
    RunEnds(cfg, evs, i, t, 1, true, last);
    GiResult.ReceivedOrInvalid(ts, two, a);
    var r := Reached(cfg, 0, 0, RepeatedEvents(cfg, i, first, last));
    assert r.giLog[..5] == [Requested(true), Brought(first), Brought(last), GiEnded(s.fledge.invalidated), Brought(last)];
    RepeatedLog(ts, first, last, s.fledge.invalidated);
  }

  lemma RepeatedLog(configured: seq<nat>, first: Byte, last: Byte, invalidated: seq<nat>)
    ensures forall a | a in GiResult.TscgReceived(configured, first) ::
              a in BroughtSince(configured,
                                [Requested(true), Brought(first), Brought(last), GiEnded(invalidated), Brought(last)])
  {
    var log := [Requested(true), Brought(first), Brought(last), GiEnded(invalidated), Brought(last)];
    assert log[..4] == [Requested(true), Brought(first), Brought(last), GiEnded(invalidated)];
    assert log[..4][..3] == [Requested(true), Brought(first), Brought(last)];
    assert log[..4][..3][..2] == [Requested(true), Brought(first)];
    assert log[..4][..3][..2][..1] == [Requested(true)];
    assert BroughtSince(configured, [Requested(true)]) == [];
    assert BroughtSince(configured, [Requested(true), Brought(first)]) == [] + GiResult.TscgReceived(configured, first);
    assert BroughtSince(configured, log[..4][..3])
           == BroughtSince(configured, log[..4][..3][..2]) + GiResult.TscgReceived(configured, last);
    assert BroughtSince(configured, log[..4]) == BroughtSince(configured, log[..4][..3]);
    assert BroughtSince(configured, log) == BroughtSince(configured, log[..4]) + GiResult.TscgReceived(configured, last);
  }

  /** There are such configurations: two TS, at 10 and 50. */
  const TWO_TS := SysConf([PathConf(3, 2, 30, 180, 3000, 10, (0x13, 0x04), (0x13, 0x04), 10000)],
                          3000, 3, 255000, Schedule(false, 99, 99), [10, 50], 50, map[])

  lemma TenIsReportedWrongly()
    ensures 10 !in Reached(TWO_TS, 0, 0, StaleEvents(TWO_TS, 0, 1, 5)).fledge.invalidated
    ensures 10 in Reached(TWO_TS, 0, 0, RepeatedEvents(TWO_TS, 0, 1, 5)).fledge.invalidated
  {
    TwoBlocks();
    StaleAddressIsNotReported(TWO_TS, 0, 1, 5, 10);
    RepeatedAnswerIsFalseAlarm(TWO_TS, 0, 1, 5, 10);
  }

  lemma TwoBlocks()
    ensures Pair(TWO_TS, 1, 5, 10)
  {
    var ts := TWO_TS.tsAddresses;
    GiResult.TscgCovers(ts, 1, 10);
    GiResult.TscgCovers(ts, 1, 50);
    GiResult.TscgCovers(ts, 5, 10);
    GiResult.TscgCovers(ts, 5, 50);
    var one, five := GiResult.TscgReceived(ts, 1), GiResult.TscgReceived(ts, 5);
    assert one[|one| - 1] in one && 50 in five;
    assert five[|five| - 1] in five && forall x | x in five :: x == 10 || x == 50;
  }
}
