/** The exact limit of the end-to-end law: for which configurations everything counted as acknowledged was
    accepted by the peer, and the runs in which it was not. */
module Overtaking {
  import opened HnzTypes
  import opened Modulo8
  import opened Link
  import opened LinkInvariants
  import opened EndToEnd

  /** Two stations with the same configuration, over every run of every session. */
  ghost predicate AlwaysDelivered(c: PathConf) {
    forall n: Net, evs: seq<Event> | SessionStart(n) && n.left.conf == c && n.right.conf == c ::
      BothDelivered(Run(n, evs))
  }

  predicate BothDelivered(n: Net) {
    DeliveredInOrder(n.left.state, n.right.state) && DeliveredInOrder(n.right.state, n.left.state)
  }

  /** Main result. The law holds in every run if and only if a timeout can never find two messages in
      flight (one at a time, or no repetition at all) and the window is at most eight wide. */
  lemma AlwaysDeliveredIff(c: PathConf)
    ensures AlwaysDelivered(c) <==> c.ratio <= 1 || (c.ratio <= 8 && c.repeatMax <= 0)
  {
    StartIsFresh(c);
    if c.ratio <= 1 || (c.ratio <= 8 && c.repeatMax <= 0) {
      forall n: Net, evs: seq<Event> | SessionStart(n) && n.left.conf == c && n.right.conf == c
        ensures BothDelivered(Run(n, evs))
      {
        RunStaysSingle(c, n, evs);
        AcknowledgedIsDelivered(n, evs);
      }
    } else if c.repeatMax >= 1 {
      OvertakingIsFalselyAcknowledged(c);
      assert !BothDelivered(Run(Start(c), OVERTAKING));
    } else {
      var evs := NinthTakenForFirst(c);
      assert !BothDelivered(Run(Start(c), evs));
    }
  }

  // ---------------------------------------------------------------- when the law holds

  /** No timeout has found two messages in flight. */
  predicate Single(c: PathConf, n: Net) {
    && NetInv(n) && n.left.conf == c && n.right.conf == c
    && !n.left.state.h.multi && !n.right.state.h.multi
  }

  lemma {:induction false} RunStaysSingle(c: PathConf, n: Net, evs: seq<Event>)
    requires SessionStart(n) && n.left.conf == c && n.right.conf == c
    requires c.ratio <= 1 || (c.ratio <= 8 && c.repeatMax <= 0)
    ensures Single(c, Run(n, evs))
    decreases |evs|
  {
    if evs == [] {
      StartIsGood(n);
    } else {
      var m := Run(n, evs[..|evs| - 1]);
      RunStaysSingle(c, n, evs[..|evs| - 1]);
      EventStaysSingle(c, m, evs[|evs| - 1]);
    }
  }

  lemma EventStaysSingle(c: PathConf, n: Net, e: Event)
    requires Single(c, n) && (c.ratio <= 1 || c.repeatMax <= 0)
    ensures Single(c, Step(n, e))
  {
    match e
    case OnLeft(a, now) => StepStaysSingle(c, n, a, now);
    case OnRight(a, now) =>
      StepStaysSingle(c, Swap(n), a, now);
      SwapSingle(c, StepLeft(Swap(n), a, now));
  }

  lemma SwapSingle(c: PathConf, n: Net)
    requires Single(c, n)
    ensures Single(c, Swap(n))
  {
  }

  lemma StepStaysSingle(c: PathConf, n: Net, a: Action, now: int)
    requires Single(c, n) && (c.ratio <= 1 || c.repeatMax <= 0)
    ensures Single(c, StepLeft(n, a, now))
  {
    StepLeftKeepsInv(n, a, now);
    ReactStaysSingle(c, n.left.state, a, n.right.link, now);
  }

  lemma ReactStaysSingle(c: PathConf, x: PathState, a: Action, link: seq<Transmission>, now: int)
    requires LinkInv(c, x) && x.proto == Connected && (c.ratio <= 1 || c.repeatMax <= 0)
    ensures React(c, x, a, link, now).h.multi == x.h.multi
  {
    match a
    case Submit(p) =>
    case Timeout => assert x.repeat < c.repeatMax ==> |x.sent| <= 1;
    case Deliver(handedUp) =>
      if link != [] {
        ReceiveStaysSingle(c, x, link[0].frame, handedUp, now);
      }
    case Lose(_) =>
  }

  lemma ReceiveStaysSingle(c: PathConf, x: PathState, f: Frame, handedUp: bool, now: int)
    requires x.proto == Connected
    ensures Receive(c, x, f, handedUp, now).h.multi == x.h.multi
  {
    match f
    case INFO(ns, nr, poll, p) => AckStaysSingle(c, x, nr, false, now);
    case RR(nr, final) => AckStaysSingle(c, x, nr, final, now);
    case _ =>
  }

  lemma AckStaysSingle(c: PathConf, x: PathState, nr: int, rep: bool, now: int)
    requires x.proto == Connected
    ensures ReceivedRR(c, x, nr, rep, now).state.h.multi == x.h.multi
  {
    RefillKeepsInput(c, Pop(x, nr, now), now);
  }

  // ---------------------------------------------------------------- runs

  const UP := FRESH_PATH.(proto := Connected, conn := Active, tcp := true)

  function Start(c: PathConf): Net {
    Net(Station(c, UP, []), Station(c, UP, []))
  }

  lemma StartIsFresh(c: PathConf)
    ensures SessionStart(Start(c))
  {
    assert Payloads(UP.sent) == [];
  }

  lemma RunNext(c: PathConf, evs: seq<Event>, k: nat)
    requires k < |evs|
    ensures Run(Start(c), evs[..k + 1]) == Step(Run(Start(c), evs[..k]), evs[k])
  {
    assert evs[..k + 1][..k] == evs[..k];
  }

  predicate Carries(link: seq<Transmission>, frames: seq<Frame>) {
    |link| == |frames| && forall i | 0 <= i < |link| :: link[i].frame == frames[i]
  }

  /** Two messages are in flight at the timeout; the third overtakes the second, takes its place in the
      queue of messages in flight, and the RR of the second, still on its way, removes it. */
  const OVERTAKING: seq<Event> := [
    OnLeft(Submit([1]), 0), OnLeft(Submit([2]), 0),
    OnRight(Deliver(true), 0), OnRight(Deliver(true), 0),
    OnLeft(Timeout, 0), OnLeft(Submit([3]), 0),
    OnLeft(Deliver(true), 0), OnLeft(Deliver(true), 0)]

  predicate LeftIs(c: PathConf, n: Net, sent: seq<Message>, waiting: seq<Payload>, ns: int, nrr: int, popped: seq<Payload>) {
    var x := n.left.state;
    && n.left.conf == c && c.ratio >= 2 && c.repeatMax >= 1
    && x.proto == Connected && x.nr == 0 && x.repeat <= 1
    && x.sent == sent && x.waiting == waiting && x.ns == ns && x.nrr == nrr && x.h.popped == popped
  }

  predicate RightIs(c: PathConf, n: Net, nr: int, rcv: seq<Payload>) {
    var y := n.right.state;
    && n.right.conf == c && y.proto == Connected && y.nrr == 0 && y.nr == nr && y.h.rcv == rcv
    && y.waiting == []
  }

  predicate Delivers(evs: seq<Event>) {
    && |evs| == 8 && evs[2] == OnRight(Deliver(true), 0) && evs[3] == OnRight(Deliver(true), 0)
    && evs[4] == OnLeft(Timeout, 0) && evs[5] == OnLeft(Submit([3]), 0)
    && evs[6] == OnLeft(Deliver(true), 0) && evs[7] == OnLeft(Deliver(true), 0)
  }

  lemma TwoSubmitted(c: PathConf, n: Net) returns (r: Net)
    requires n.left.state.repeat == 0
    requires LeftIs(c, n, [], [], 0, 0, []) && n.left.link == [] && RightIs(c, n, 0, []) && n.right.link == []
    ensures r == StepLeft(StepLeft(n, Submit([1]), 0), Submit([2]), 0)
    ensures LeftIs(c, r, [Message(0, [1]), Message(1, [2])], [], 2, 0, []) && r.right == n.right
    ensures r.left.state.repeat == 0
    ensures Carries(r.left.link, [INFO(0, 0, false, [1]), INFO(1, 0, false, [2])])
  {
    var m := StepLeft(n, Submit([1]), 0);
    assert Carries(m.left.link, [INFO(0, 0, false, [1])]);
    r := StepLeft(m, Submit([2]), 0);
  }

  /** The right station accepts the expected frame and answers with an RR. */
  lemma AcceptedOnRight(c: PathConf, n: Net, ns: int, p: Payload, more: seq<Frame>, rcv: seq<Payload>, rrs: seq<Frame>)
    requires RightIs(c, n, ns, rcv) && 0 <= ns < 7 && n.left.state.proto == Connected
    requires Carries(n.left.link, [INFO(ns, 0, false, p)] + more) && Carries(n.right.link, rrs)
    ensures var r := Step(n, OnRight(Deliver(true), 0));
            && RightIs(c, r, ns + 1, rcv + [p]) && r.left == n.left.(link := n.left.link[1..])
            && Carries(r.left.link, more) && Carries(r.right.link, rrs + [RR(ns + 1, false)])
  {
    assert n.left.link[0].frame == INFO(ns, 0, false, p);
    var y' := Receive(n.right.conf, n.right.state, n.left.link[0].frame, true, 0);
    assert Emitted(n.right.state, y') == [y'.h.wire[|n.right.state.h.wire|]];
  }

  lemma FirstAccepted(c: PathConf, n: Net) returns (r: Net)
    requires RightIs(c, n, 0, []) && n.right.link == [] && n.left.state.proto == Connected
    requires Carries(n.left.link, [INFO(0, 0, false, [1]), INFO(1, 0, false, [2])])
    ensures r == Step(n, OnRight(Deliver(true), 0)) && r.left == n.left.(link := n.left.link[1..])
    ensures RightIs(c, r, 1, [[1]]) && Carries(r.right.link, [RR(1, false)])
    ensures Carries(r.left.link, [INFO(1, 0, false, [2])])
  {
    AcceptedOnRight(c, n, 0, [1], [INFO(1, 0, false, [2])], [], []);
    r := Step(n, OnRight(Deliver(true), 0));
    assert [] + [RR(1, false)] == [RR(1, false)];
    assert [] + [[1]] == [[1]];
  }

  lemma SecondAccepted(c: PathConf, n: Net) returns (r: Net)
    requires RightIs(c, n, 1, [[1]]) && Carries(n.right.link, [RR(1, false)]) && n.left.state.proto == Connected
    requires Carries(n.left.link, [INFO(1, 0, false, [2])])
    ensures r == Step(n, OnRight(Deliver(true), 0)) && r.left == n.left.(link := n.left.link[1..])
    ensures RightIs(c, r, 2, [[1], [2]]) && Carries(r.right.link, [RR(1, false), RR(2, false)])
  {
    AcceptedOnRight(c, n, 1, [2], [], [[1]], [RR(1, false)]);
    r := Step(n, OnRight(Deliver(true), 0));
    assert [RR(1, false)] + [RR(2, false)] == [RR(1, false), RR(2, false)];
    assert [[1]] + [[2]] == [[1], [2]];
  }

  lemma OvertakenAfterTimeout(c: PathConf, n: Net) returns (r: Net)
    requires LeftIs(c, n, [Message(0, [1]), Message(1, [2])], [], 2, 0, []) && n.left.state.repeat == 0
    requires n.right.state.proto == Connected
    ensures r == StepLeft(StepLeft(n, Timeout, 0), Submit([3]), 0)
    ensures LeftIs(c, r, [Message(0, [1]), Message(2, [3])], [[2]], 3, 0, []) && r.right == n.right
  {
    var m := StepLeft(n, Timeout, 0);
    assert Payloads([Message(1, [2])]) == [[2]];
    assert LeftIs(c, m, [Message(0, [1])], [[2]], 2, 0, []);
    r := StepLeft(m, Submit([3]), 0);
  }

  lemma FirstAckOnLeft(c: PathConf, n: Net) returns (r: Net)
    requires LeftIs(c, n, [Message(0, [1]), Message(2, [3])], [[2]], 3, 0, []) && n.right.state.proto == Connected
    requires Carries(n.right.link, [RR(1, false), RR(2, false)])
    ensures r == StepLeft(n, Deliver(true), 0)
    ensures LeftIs(c, r, [Message(2, [3]), Message(3, [2])], [], 4, 1, [[1]])
    ensures Carries(r.right.link, [RR(2, false)]) && r.right.state == n.right.state
  {
    FirstAckPops(c, n.left.state);
    r := StepLeft(n, Deliver(true), 0);
    assert n.right.link[0].frame == RR(1, false);
  }

  lemma FirstAckPops(c: PathConf, x: PathState)
    requires c.ratio >= 2 && x.proto == Connected && x.nrr == 0 && x.ns == 3 && x.h.popped == []
    requires x.sent == [Message(0, [1]), Message(2, [3])] && x.waiting == [[2]]
    ensures var r := ReceivedRR(c, x, 1, false, 0).state;
            && r.proto == Connected && r.nr == x.nr && r.repeat == 0 && r.nrr == 1 && r.ns == 4
            && r.sent == [Message(2, [3]), Message(3, [2])] && r.waiting == [] && r.h.popped == [[1]]
  {
    var x1 := Pop(x, 1, 0);
    assert x1.sent == [Message(2, [3])] && x1.h.popped == [[1]];
    assert Refill(c, x1, 0) == RefillOnce(c, x1, 0);
  }

  lemma SecondAckOnLeft(c: PathConf, n: Net)
    requires LeftIs(c, n, [Message(2, [3]), Message(3, [2])], [], 4, 1, [[1]]) && n.right.state.proto == Connected
    requires Carries(n.right.link, [RR(2, false)])
    ensures StepLeft(n, Deliver(true), 0).left.state.h.popped == [[1], [3]]
    ensures StepLeft(n, Deliver(true), 0).right.state == n.right.state
  {
    assert n.right.link[0].frame == RR(2, false);
    var x1 := Pop(n.left.state, 2, 0);
    assert x1.h.popped == [[1], [3]];
  }

  predicate FalselyAcknowledged(n: Net) {
    && n.left.state.h.popped == [[1], [3]]
    && n.right.state.h.rcv == [[1], [2]]
    && !DeliveredInOrder(n.left.state, n.right.state)
  }

  lemma FromSecondAck(c: PathConf, evs: seq<Event>, n: Net)
    requires |evs| == 8 && evs[7] == OnLeft(Deliver(true), 0) && n == Run(Start(c), evs[..7])
    requires LeftIs(c, n, [Message(2, [3]), Message(3, [2])], [], 4, 1, [[1]]) && n.right.state.proto == Connected
    requires Carries(n.right.link, [RR(2, false)]) && n.right.state.h.rcv == [[1], [2]]
    ensures FalselyAcknowledged(Run(Start(c), evs))
  {
    SecondAckOnLeft(c, n);
    RunNext(c, evs, 7);
    assert evs[..8] == evs;
    var r := Run(Start(c), evs);
    assert r.left.state.h.popped[1] != r.right.state.h.rcv[1];
  }

  lemma FromFirstAck(c: PathConf, evs: seq<Event>, n: Net)
    requires |evs| == 8 && n == Run(Start(c), evs[..6])
    requires evs[6] == OnLeft(Deliver(true), 0) && evs[7] == OnLeft(Deliver(true), 0)
    requires LeftIs(c, n, [Message(0, [1]), Message(2, [3])], [[2]], 3, 0, []) && n.right.state.proto == Connected
    requires Carries(n.right.link, [RR(1, false), RR(2, false)]) && n.right.state.h.rcv == [[1], [2]]
    ensures FalselyAcknowledged(Run(Start(c), evs))
  {
    var r := FirstAckOnLeft(c, n);
    RunNext(c, evs, 6);
    FromSecondAck(c, evs, r);
  }

  lemma FromTimeout(c: PathConf, evs: seq<Event>, n: Net)
    requires |evs| == 8 && n == Run(Start(c), evs[..4])
    requires evs[4] == OnLeft(Timeout, 0) && evs[5] == OnLeft(Submit([3]), 0)
    requires evs[6] == OnLeft(Deliver(true), 0) && evs[7] == OnLeft(Deliver(true), 0)
    requires LeftIs(c, n, [Message(0, [1]), Message(1, [2])], [], 2, 0, []) && n.left.state.repeat == 0
    requires RightIs(c, n, 2, [[1], [2]]) && Carries(n.right.link, [RR(1, false), RR(2, false)])
    ensures FalselyAcknowledged(Run(Start(c), evs))
  {
    var r := OvertakenAfterTimeout(c, n);
    RunNext(c, evs, 4);
    RunNext(c, evs, 5);
    FromFirstAck(c, evs, r);
  }

  lemma FromSecondFrame(c: PathConf, evs: seq<Event>, n: Net)
    requires Delivers(evs) && n == Run(Start(c), evs[..3])
    requires LeftIs(c, n, [Message(0, [1]), Message(1, [2])], [], 2, 0, []) && n.left.state.repeat == 0
    requires RightIs(c, n, 1, [[1]]) && Carries(n.right.link, [RR(1, false)])
    requires Carries(n.left.link, [INFO(1, 0, false, [2])])
    ensures FalselyAcknowledged(Run(Start(c), evs))
  {
    var r := SecondAccepted(c, n);
    RunNext(c, evs, 3);
    FromTimeout(c, evs, r);
  }

  lemma FromTwoSubmitted(c: PathConf, evs: seq<Event>, n: Net)
    requires Delivers(evs) && n == Run(Start(c), evs[..2])
    requires LeftIs(c, n, [Message(0, [1]), Message(1, [2])], [], 2, 0, []) && n.left.state.repeat == 0
    requires RightIs(c, n, 0, []) && n.right.link == []
    requires Carries(n.left.link, [INFO(0, 0, false, [1]), INFO(1, 0, false, [2])])
    ensures FalselyAcknowledged(Run(Start(c), evs))
  {
    var r := FirstAccepted(c, n);
    RunNext(c, evs, 2);
    FromSecondFrame(c, evs, r);
  }

  /** The law fails without its hypothesis: message [3] is counted as acknowledged, and the peer never
      accepted it. */
  lemma OvertakingIsFalselyAcknowledged(c: PathConf)
    requires c.ratio >= 2 && c.repeatMax >= 1
    ensures SessionStart(Start(c))
    ensures FalselyAcknowledged(Run(Start(c), OVERTAKING))
  {
    StartIsFresh(c);
    var n2 := TwoSubmitted(c, Start(c));
    RunNext(c, OVERTAKING, 0);
    RunNext(c, OVERTAKING, 1);
    FromTwoSubmitted(c, OVERTAKING, n2);
  }

  // ---------------------------------------------------------------- a window of nine

  lemma RunThen(n: Net, evs: seq<Event>, e: Event)
    ensures Run(n, evs + [e]) == Step(Run(n, evs), e)
  {
    assert (evs + [e])[..|evs|] == evs;
  }

  /** The left station has sent k messages [1] for the first time; the frames from number `lost` on are
      still on their way. */
  predicate Flooded(c: PathConf, n: Net, k: nat, lost: nat) {
    var x := n.left.state;
    && n.left.conf == c && x.proto == Connected && x.nr == 0 && x.ns == k % 8
    && |x.sent| == k && |x.h.txs| == k && (k > 0 ==> x.h.txs[0] == [1])
    && n.right == Station(c, UP, [])
    && lost <= k && |n.left.link| == k - lost
    && forall i | 0 <= i < |n.left.link| :: n.left.link[i].frame.INFO? && n.left.link[i].frame.ns == (lost + i) % 8
                                            && n.left.link[i].frame.nr == 0
  }

  lemma OneMoreSent(c: PathConf, n: Net, k: nat, p: Payload)
    requires Flooded(c, n, k, 0) && k < c.ratio && (k == 0 ==> p == [1])
    ensures var r := StepLeft(n, Submit(p), 0);
            Flooded(c, r, k + 1, 0) && r.left.link[k].frame == INFO(k % 8, 0, false, p)
  {
    var x := n.left.state;
    var x' := SendInfo(c, x, p, 0).state;
    assert Emitted(x, x') == [x'.h.wire[|x.h.wire|]];
  }

  lemma {:induction false} Flood(c: PathConf, k: nat) returns (evs: seq<Event>)
    requires k < c.ratio
    ensures Flooded(c, Run(Start(c), evs), k, 0)
  {
    evs := [];
    if k > 0 {
      var before := Flood(c, k - 1);
      evs := before + [OnLeft(Submit([1]), 0)];
      RunThen(Start(c), before, OnLeft(Submit([1]), 0));
      OneMoreSent(c, Run(Start(c), before), k - 1, [1]);
    }
  }

  lemma OneMoreLost(c: PathConf, n: Net, lost: nat)
    requires Flooded(c, n, 9, lost) && lost < 8
    ensures var r := StepLeft(n, Lose(0), 0);
            Flooded(c, r, 9, lost + 1) && r.left.link == n.left.link[1..] && r.left.state == n.left.state
  {
    var x, link := n.left.state, n.left.link;
    assert Emitted(x, x) == [] && link[..0] + link[1..] + [] == link[1..];
    forall i | 0 <= i < |link[1..]| ensures link[1..][i].frame.ns == (lost + 1 + i) % 8 {
      assert link[1..][i] == link[i + 1] && lost + (i + 1) == lost + 1 + i;
    }
  }

  lemma {:induction false} LoseFirst(c: PathConf, evs: seq<Event>, lost: nat) returns (all: seq<Event>)
    requires Flooded(c, Run(Start(c), evs), 9, 0) && lost <= 8
    ensures Flooded(c, Run(Start(c), all), 9, lost)
    ensures Run(Start(c), all).left.link == Run(Start(c), evs).left.link[lost..]
  {
    all := evs;
    if lost > 0 {
      var before := LoseFirst(c, evs, lost - 1);
      all := before + [OnLeft(Lose(0), 0)];
      RunThen(Start(c), before, OnLeft(Lose(0), 0));
      OneMoreLost(c, Run(Start(c), before), lost - 1);
      var link := Run(Start(c), evs).left.link;
      assert link[lost - 1..][1..] == link[lost..];
    }
  }

  /** With a window of nine the first eight frames may all be lost; the ninth, [2], carries the number of
      the first and is accepted in its place. */
  lemma NinthTakenForFirst(c: PathConf) returns (evs: seq<Event>)
    requires c.ratio >= 9
    ensures !BothDelivered(Run(Start(c), evs))
  {
    var eight := Flood(c, 8);
    var nine := eight + [OnLeft(Submit([2]), 0)];
    RunThen(Start(c), eight, OnLeft(Submit([2]), 0));
    OneMoreSent(c, Run(Start(c), eight), 8, [2]);
    var last := LoseFirst(c, nine, 8);
    evs := last + [OnRight(Deliver(true), 0)];
    RunThen(Start(c), last, OnRight(Deliver(true), 0));
    WrongOneAccepted(c, Run(Start(c), last));
  }

  lemma WrongOneAccepted(c: PathConf, n: Net)
    requires Flooded(c, n, 9, 8) && n.left.link[0].frame == INFO(0, 0, false, [2])
    ensures !BothDelivered(Step(n, OnRight(Deliver(true), 0)))
  {
    var r := Step(n, OnRight(Deliver(true), 0));
    assert r.right.state.h.rcv == [[2]] && r.left.state.h.txs[0] == [1];
    assert r.right.state.h.rcv[0] != r.left.state.h.txs[0];
  }
}
