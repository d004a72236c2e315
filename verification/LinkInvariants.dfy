/** What every step of the link layer keeps. */
module LinkInvariants {
  import opened HnzTypes
  import opened Modulo8
  import opened Link

  /** The states in which the path numbers and sends information messages. */
  predicate Sending(s: PathState) {
    s.proto == OutputConnected || s.proto == Connected
  }

  predicate AllBulles(c: PathConf, s: PathState) {
    && (forall m | m in s.sent :: IsBulle(c, m.payload))
    && (forall p | p in s.waiting :: IsBulle(c, p))
  }

  /** Both queues are empty until messages may be sent, and hold only BULLEs in OUTPUT_CONNECTED. */
  predicate QueuesFitState(c: PathConf, s: PathState) {
    && (!Sending(s) ==> s.sent == [] && s.waiting == [])
    && (s.proto == OutputConnected ==> AllBulles(c, s))
  }

  predicate Bounded(c: PathConf, s: PathState) {
    && |s.sent| <= c.ratio
    && 0 <= s.repeat <= (if c.repeatMax < 0 then 0 else c.repeatMax)
    && 0 <= s.sarmSent
    && (c.maxSarm >= 1 ==> s.sarmSent <= c.maxSarm)
  }

  /** The three-bit counters are the unbounded ones modulo 8. */
  predicate Numbered(s: PathState) {
    && s.ns == |s.h.txs| % 8
    && s.nrr == s.h.va % 8
    && s.nr == |s.h.rcv| % 8
    && s.h.va <= |s.h.txs|
  }

  /** Every accepted message is acknowledged, in flight, waiting or discarded: exactly one of them. */
  predicate Conserved(s: PathState) {
    multiset(s.h.accepted) ==
      multiset(s.h.acknowledged) + multiset(Payloads(s.sent)) + multiset(s.waiting) + multiset(s.h.discarded)
  }

  predicate LegalOnWire(c: PathConf, t: Transmission) {
    t.frame.INFO? ==> MaySend(c, t.proto, t.frame.payload)
  }

  predicate WireSafe(c: PathConf, s: PathState) {
    forall t | t in s.h.wire :: LegalOnWire(c, t)
  }

  /** A repetition on the wire: the poll bit is set. */
  predicate IsResend(t: Transmission) {
    t.frame.INFO? && t.frame.poll
  }

  function Resends(w: seq<Transmission>): nat {
    if w == [] then 0 else Resends(w[..|w| - 1]) + (if IsResend(w[|w| - 1]) then 1 else 0)
  }

  /** m_repeat is the number of repetitions sent since the last accepted NR or output reset. */
  predicate RepeatsCounted(s: PathState) {
    s.h.mark <= |s.h.wire| && s.repeat == Resends(s.h.wire[s.h.mark..])
  }

  predicate WireKept(c: PathConf, s: PathState) {
    WireSafe(c, s) && RepeatsCounted(s)
  }

  predicate NumberedFrom(sent: seq<Message>, va: nat) {
    forall i | 0 <= i < |sent| :: sent[i].ns == (va + i) % 8
  }

  /** The queue of messages in flight is exactly the window [VA, VS) of the messages sent in this
      session, the acknowledged ones are those before it, and nothing overtakes a waiting message. */
  predicate ExactWindow(c: PathConf, s: PathState) {
    RefillWindow(s) && (s.waiting != [] ==> |s.sent| >= c.ratio)
  }

  /** The same while the refill loop runs: there may still be room and waiting messages. */
  predicate RefillWindow(s: PathState) {
    && s.h.va + |s.sent| == |s.h.txs|
    && Payloads(s.sent) == s.h.txs[s.h.va..]
    && NumberedFrom(s.sent, s.h.va)
    && s.h.popped == s.h.txs[..s.h.va]
    && s.h.submitted == s.h.txs + s.waiting
  }

  /** How far the window is ahead of the queue of messages in flight. */
  function Drift(s: PathState): int {
    |s.h.txs| - s.h.va - |s.sent|
  }

  /** What n timeouts can add to the drift: at most ratio-1 each. */
  function DriftLimit(c: PathConf, n: int): (d: nat)
    decreases n
  {
    if n <= 0 || c.ratio == 0 then 0 else DriftLimit(c, n - 1) + (c.ratio - 1)
  }

  predicate DriftBounded(c: PathConf, s: PathState) {
    0 <= Drift(s) <= DriftLimit(c, s.repeat)
  }

  lemma {:induction false} DriftLimitIs(c: PathConf, n: nat)
    requires c.ratio >= 1
    ensures DriftLimit(c, n) == n * (c.ratio - 1)
  {
    if n > 0 {
      DriftLimitIs(c, n - 1);
      assert n * (c.ratio - 1) == (n - 1) * (c.ratio - 1) + (c.ratio - 1);
    }
  }

  lemma {:induction false} DriftLimitGrows(c: PathConf, m: int, n: int)
    requires m <= n
    ensures DriftLimit(c, m) <= DriftLimit(c, n)
    decreases n - m
  {
    if m < n {
      DriftLimitGrows(c, m, n - 1);
    }
  }

  predicate WindowKept(c: PathConf, s: PathState) {
    Sending(s) ==>
      && (!s.h.multi ==> ExactWindow(c, s) && !s.h.lost)
      && 0 <= Drift(s) && (!s.h.lost ==> DriftBounded(c, s))
  }

  predicate LinkInv(c: PathConf, s: PathState) {
    && QueuesFitState(c, s)
    && Bounded(c, s)
    && Numbered(s)
    && Conserved(s)
    && WireKept(c, s)
    && WindowKept(c, s)
    && HandedUp(s)
  }

  /** What was handed up against what was received in sequence, on a path that may stop delivering and
      start again: nothing else than frames out of sequence is added, nothing else than frames received
      while another path delivered is left out. */
  predicate HandedUp(s: PathState) {
    && |s.h.up| + s.h.missed == |s.h.rcv| + s.h.duplicates
    && (s.h.missed == 0 ==> multiset(s.h.rcv) <= multiset(s.h.up))
    && (s.h.missed == 0 && s.h.duplicates == 0 ==> s.h.up == s.h.rcv)
  }

  lemma NoteFrameKeepsHandedUp(s: PathState, r: PathState, inSequence: bool, handedUp: bool, p: Payload)
    requires HandedUp(s)
    requires var h := NoteFrame(s.h, inSequence, handedUp, p);
             r.h == h.(wire := r.h.wire)
    ensures HandedUp(r)
  {
  }

  lemma WaitingIsSendable(c: PathConf, s: PathState)
    requires QueuesFitState(c, s)
    ensures WaitingSendable(c, s)
  {
  }

  lemma PayloadsAppend(a: seq<Message>, b: seq<Message>)
    ensures Payloads(a + b) == Payloads(a) + Payloads(b)
  {
  }

  lemma PayloadsSlice(a: seq<Message>, n: nat)
    requires n <= |a|
    ensures Payloads(a[n..]) == Payloads(a)[n..] && Payloads(a[..n]) == Payloads(a)[..n]
    ensures Payloads(a) == Payloads(a[..n]) + Payloads(a[n..])
  {
  }

  /** Appending a transmission to the wire log. */
  lemma WireGrows(c: PathConf, s: PathState, s': PathState, t: Transmission)
    requires WireKept(c, s) && s'.h.wire == s.h.wire + [t] && LegalOnWire(c, t)
    requires s'.h.mark == s.h.mark && s'.repeat == s.repeat + (if IsResend(t) then 1 else 0)
    ensures WireKept(c, s')
  {
    DropOfAppend(s.h.wire, t, s.h.mark);
    ResendsAppend(s.h.wire[s.h.mark..], t);
    LegalAppend(c, s.h.wire, t);
  }

  lemma DropOfAppend<T>(w: seq<T>, t: T, mark: nat)
    requires mark <= |w|
    ensures (w + [t])[mark..] == w[mark..] + [t]
  {
  }

  lemma LegalAppend(c: PathConf, w: seq<Transmission>, t: Transmission)
    requires (forall u | u in w :: LegalOnWire(c, u)) && LegalOnWire(c, t)
    ensures forall u | u in w + [t] :: LegalOnWire(c, u)
  {
  }

  lemma ResendsAppend(w: seq<Transmission>, t: Transmission)
    ensures Resends(w + [t]) == Resends(w) + (if IsResend(t) then 1 else 0)
  {
    assert (w + [t])[..|w|] == w;
  }

  /** A step that leaves the queues, the output counters and their history alone. */
  lemma SameQueuesKeepInv(c: PathConf, s: PathState, r: PathState)
    requires LinkInv(c, s)
    requires r.proto == s.proto && r.sent == s.sent && r.waiting == s.waiting
    requires r.ns == s.ns && r.nrr == s.nrr && r.repeat == s.repeat
    requires r.h == s.h.(wire := r.h.wire, rcv := r.h.rcv, up := r.h.up, duplicates := r.h.duplicates,
                         missed := r.h.missed)
    requires WireKept(c, r) && r.nr == |r.h.rcv| % 8 && HandedUp(r)
    requires 0 <= r.sarmSent && (c.maxSarm >= 1 ==> r.sarmSent <= c.maxSarm)
    ensures LinkInv(c, r)
  {
  }

  /** A newly accepted message that goes to one of the two queues. */
  lemma AcceptConserves(s: PathState, r: PathState, p: Payload)
    requires Conserved(s)
    requires r.h.accepted == s.h.accepted + [p]
    requires r.h.acknowledged == s.h.acknowledged && r.h.discarded == s.h.discarded
    requires || (Payloads(r.sent) == Payloads(s.sent) + [p] && r.waiting == s.waiting)
             || (r.sent == s.sent && r.waiting == s.waiting + [p])
    ensures Conserved(r)
  {
  }

  /** Moving messages inside acknowledged ++ sent ++ waiting. */
  lemma MoveConserves(s: PathState, r: PathState)
    requires Conserved(s)
    requires r.h.accepted == s.h.accepted && r.h.discarded == s.h.discarded
    requires r.h.acknowledged + Payloads(r.sent) + r.waiting == s.h.acknowledged + Payloads(s.sent) + s.waiting
    ensures Conserved(r)
  {
    MultisetOfThree(r.h.acknowledged, Payloads(r.sent), r.waiting);
    MultisetOfThree(s.h.acknowledged, Payloads(s.sent), s.waiting);
  }

  lemma MultisetOfThree(a: seq<Payload>, b: seq<Payload>, d: seq<Payload>)
    ensures multiset(a + b + d) == multiset(a) + multiset(b) + multiset(d)
  {
  }

  /** The window after one more message was sent; `waiting` is what is left to wait. */
  lemma SendExtendsWindow(c: PathConf, s: PathState, p: Payload, now: int, waiting: seq<Payload>)
    requires MaySend(c, s.proto, p) && |s.sent| < c.ratio
    requires s.h.va + |s.sent| == |s.h.txs| && Payloads(s.sent) == s.h.txs[s.h.va..]
    requires NumberedFrom(s.sent, s.h.va)
    requires s.ns == |s.h.txs| % 8
    requires s.h.popped == s.h.txs[..s.h.va]
    requires s.h.submitted == s.h.txs + [p] + waiting
    requires waiting != [] ==> |s.sent| + 1 >= c.ratio
    ensures ExactWindow(c, SendInfoImmediately(c, s, p, now).state.(waiting := waiting))
  {
    var r := SendInfoImmediately(c, s, p, now).state.(waiting := waiting);
    PayloadsAppend(s.sent, [Message(s.ns, p)]);
    assert r.h.txs[r.h.va..] == s.h.txs[s.h.va..] + [p];
    assert r.h.txs[..r.h.va] == s.h.txs[..s.h.va];
  }

  lemma SendKeepsRest(c: PathConf, s: PathState, p: Payload, now: int)
    requires MaySend(c, s.proto, p) && |s.sent| < c.ratio
    requires QueuesFitState(c, s) && Bounded(c, s) && Numbered(s) && WireKept(c, s)
    ensures var r := SendInfoImmediately(c, s, p, now).state;
            QueuesFitState(c, r) && Bounded(c, r) && Numbered(r) && WireKept(c, r)
    ensures var r := SendInfoImmediately(c, s, p, now).state;
            Drift(r) == Drift(s) && r.repeat == s.repeat
  {
    var r := SendInfoImmediately(c, s, p, now).state;
    WireGrows(c, s, r, r.h.wire[|s.h.wire|]);
  }

  lemma SendInfoKeepsInv(c: PathConf, s: PathState, p: Payload, now: int)
    requires LinkInv(c, s)
    ensures LinkInv(c, SendInfo(c, s, p, now).state)
  {
    if MaySend(c, s.proto, p) {
      if |s.sent| < c.ratio {
        SendNowKeepsInv(c, s, p, now);
      } else {
        DelayKeepsInv(c, s, p, now);
      }
    }
  }

  lemma SendNowKeepsInv(c: PathConf, s: PathState, p: Payload, now: int)
    requires LinkInv(c, s) && MaySend(c, s.proto, p) && |s.sent| < c.ratio
    ensures LinkInv(c, SendInfo(c, s, p, now).state)
  {
    var s1 := s.(h := s.h.(accepted := s.h.accepted + [p], submitted := s.h.submitted + [p]));
    var r := SendInfo(c, s, p, now).state;
    assert r == SendInfoImmediately(c, s1, p, now).state;
    SendKeepsRest(c, s1, p, now);
    PayloadsAppend(s.sent, [Message(s.ns, p)]);
    AcceptConserves(s, r, p);
    if !s.h.multi {
      SendExtendsWindow(c, s1, p, now, s.waiting);
      assert r == r.(waiting := s.waiting);
    }
  }

  lemma DelayKeepsInv(c: PathConf, s: PathState, p: Payload, now: int)
    requires LinkInv(c, s) && MaySend(c, s.proto, p) && |s.sent| >= c.ratio
    ensures LinkInv(c, SendInfo(c, s, p, now).state)
  {
    var r := SendInfo(c, s, p, now).state;
    AcceptConserves(s, r, p);
    assert !s.h.multi ==> r.h.submitted == r.h.txs + r.waiting;
  }

  /** One turn of the refill loop keeps everything the loop starts with, sends the head of the waiting
      queue and shortens it: the measure of the loop. */
  lemma RefillOnceKeepsInv(c: PathConf, s: PathState, now: int)
    requires RefillInv(c, s) && s.waiting != [] && |s.sent| < c.ratio
    ensures RefillInv(c, RefillOnce(c, s, now))
    ensures Payloads(RefillOnce(c, s, now).sent) + RefillOnce(c, s, now).waiting
            == Payloads(s.sent) + s.waiting
  {
    var p := s.waiting[0];
    var r := RefillOnce(c, s, now);
    WaitingIsSendable(c, s);
    SendKeepsRest(c, s, p, now);
    PayloadsAppend(s.sent, [Message(s.ns, p)]);
    assert s.waiting == [p] + s.waiting[1..];
    MoveConserves(s, r);
    if Sending(s) && !s.h.multi {
      WindowAfterRefillTurn(c, s, now);
    }
  }

  lemma WindowAfterRefillTurn(c: PathConf, s: PathState, now: int)
    requires s.waiting != [] && |s.sent| < c.ratio && MaySend(c, s.proto, s.waiting[0])
    requires Numbered(s) && RefillWindow(s)
    ensures RefillWindow(RefillOnce(c, s, now))
  {
    var p := s.waiting[0];
    var r := RefillOnce(c, s, now);
    PayloadsAppend(s.sent, [Message(s.ns, p)]);
    assert r.h.txs[r.h.va..] == s.h.txs[s.h.va..] + [p];
    assert r.h.txs[..r.h.va] == s.h.txs[..s.h.va];
    assert s.waiting == [p] + s.waiting[1..];
    assert r.h.txs + r.waiting == s.h.txs + s.waiting;
  }

  predicate RefillInv(c: PathConf, s: PathState) {
    && QueuesFitState(c, s)
    && Bounded(c, s)
    && Numbered(s)
    && Conserved(s)
    && WireKept(c, s)
    && HandedUp(s)
    && (Sending(s) ==>
          && (!s.h.multi ==> RefillWindow(s) && !s.h.lost)
          && 0 <= Drift(s) && (!s.h.lost ==> DriftBounded(c, s)))
  }

  /** The refill loop ends with the window full or nothing waiting, and moves messages from one queue
      to the other without changing their order. */
  lemma {:induction false} RefillKeepsInv(c: PathConf, s: PathState, now: int)
    requires RefillInv(c, s)
    ensures WaitingSendable(c, s)
    ensures LinkInv(c, Refill(c, s, now))
    ensures Refill(c, s, now).waiting == [] || |Refill(c, s, now).sent| >= c.ratio
    ensures Payloads(Refill(c, s, now).sent) + Refill(c, s, now).waiting == Payloads(s.sent) + s.waiting
    decreases |s.waiting|
  {
    WaitingIsSendable(c, s);
    if s.waiting != [] && |s.sent| < c.ratio {
      RefillOnceKeepsInv(c, s, now);
      RefillKeepsInv(c, RefillOnce(c, s, now), now);
    } else {
      RefillEnded(c, s);
    }
  }

  lemma RefillEnded(c: PathConf, s: PathState)
    requires RefillInv(c, s) && (s.waiting == [] || |s.sent| >= c.ratio)
    ensures LinkInv(c, s)
  {
  }

  lemma PopKeepsInv(c: PathConf, s: PathState, nr: int, now: int)
    requires LinkInv(c, s) && 0 <= nr < 8 && nr != s.nrr && IsNRValid(s.nrr, s.ns, nr)
    ensures RefillInv(c, Pop(s, nr, now))
  {
    ValidNRIsInWindow(s.h.va, |s.h.txs|, nr);
    PopManyKeepsInv(c, s, NROffset(s.nrr, nr), nr, now);
  }

  lemma PopManyKeepsInv(c: PathConf, s: PathState, offset: nat, nr: int, now: int)
    requires LinkInv(c, s) && s.h.va + offset <= |s.h.txs| && nr == (s.h.va + offset) % 8
    ensures RefillInv(c, PopMany(s, offset, nr, now))
  {
    PopKeepsRest(c, s, offset, nr, now);
    PopConserves(s, offset, nr, now);
    if Sending(s) && !s.h.multi {
      PopMovesWindow(c, s, offset, nr, now);
      NoDrift(c, PopMany(s, offset, nr, now));
    }
  }

  lemma PopKeepsRest(c: PathConf, s: PathState, offset: nat, nr: int, now: int)
    requires QueuesFitState(c, s) && Bounded(c, s) && Numbered(s) && WireKept(c, s)
    requires s.h.va + offset <= |s.h.txs| && nr == (s.h.va + offset) % 8
    ensures var r := PopMany(s, offset, nr, now);
            QueuesFitState(c, r) && Bounded(c, r) && Numbered(r) && WireKept(c, r)
  {
  }

  lemma NoDrift(c: PathConf, s: PathState)
    requires Drift(s) == 0 && s.repeat == 0
    ensures DriftBounded(c, s)
  {
  }

  lemma PopConserves(s: PathState, offset: nat, nr: int, now: int)
    requires Conserved(s)
    ensures Conserved(PopMany(s, offset, nr, now))
  {
    var r := PopMany(s, offset, nr, now);
    var n := if offset < |s.sent| then offset else |s.sent|;
    PayloadsSlice(s.sent, n);
    Regroup(s.h.acknowledged, Payloads(s.sent[..n]), Payloads(s.sent[n..]), Payloads(s.sent));
    MoveConserves(s, r);
  }

  lemma Regroup(a: seq<Payload>, x: seq<Payload>, y: seq<Payload>, b: seq<Payload>)
    requires b == x + y
    ensures (a + x) + y == a + b
  {
  }

  /** In an exact window an accepted NR removes exactly the messages before the number it stands for. */
  lemma PopMovesWindow(c: PathConf, s: PathState, offset: nat, nr: int, now: int)
    requires ExactWindow(c, s) && s.h.va + offset <= |s.h.txs|
    ensures RefillWindow(PopMany(s, offset, nr, now))
    ensures PopMany(s, offset, nr, now).sent == s.sent[offset..]
  {
    var r := PopMany(s, offset, nr, now);
    assert r.sent == s.sent[offset..];
    CutTwice(s.sent, s.h.txs, s.h.va, offset);
    NumbersMove(s.sent, s.h.va, offset);
    assert r.h.popped == s.h.popped + Payloads(s.sent[..offset]);
  }

  lemma CutTwice(sent: seq<Message>, txs: seq<Payload>, va: nat, n: nat)
    requires va + n <= |txs| && n <= |sent| && Payloads(sent) == txs[va..]
    ensures Payloads(sent[n..]) == txs[va + n..]
    ensures txs[..va] + Payloads(sent[..n]) == txs[..va + n]
  {
    PayloadsSlice(sent, n);
    assert txs[va + n..] == txs[va..][n..];
    assert txs[..va + n] == txs[..va] + txs[va..][..n];
  }

  lemma NumbersMove(sent: seq<Message>, va: nat, n: nat)
    requires n <= |sent| && NumberedFrom(sent, va)
    ensures NumberedFrom(sent[n..], va + n)
  {
    forall i | 0 <= i < |sent[n..]| ensures sent[n..][i].ns == (va + n + i) % 8 {
      assert sent[n..][i] == sent[n + i];
      assert va + (n + i) == va + n + i;
    }
  }

  lemma ReceivedRRKeepsInv(c: PathConf, s: PathState, nr: int, repetition: bool, now: int)
    requires LinkInv(c, s) && 0 <= nr < 8
    ensures WaitingSendable(c, s) && LinkInv(c, ReceivedRR(c, s, nr, repetition, now).state)
  {
    WaitingIsSendable(c, s);
    if nr != s.nrr && IsNRValid(s.nrr, s.ns, nr) && (!repetition || s.repeat > 0) {
      PopKeepsInv(c, s, nr, now);
      RefillKeepsInv(c, Pop(s, nr, now), now);
    }
  }

  lemma AcknowledgeKeepsInv(c: PathConf, s: PathState, repetition: bool, ns: int, p: Payload, handedUp: bool, now: int)
    requires LinkInv(c, s)
    ensures LinkInv(c, Acknowledge(s, repetition, ns, p, handedUp, now))
  {
    var r := Acknowledge(s, repetition, ns, p, handedUp, now);
    AnswerKeepsWire(c, s, repetition, ns, p, handedUp, now);
    NoteFrameKeepsHandedUp(s, r, ns == s.nr, handedUp, p);
    AcknowledgeChanges(s, repetition, ns, p, handedUp, now);
    SameQueuesKeepInv(c, s, r);
  }

  /** Only the reception side of the path changes. */
  lemma AcknowledgeChanges(s: PathState, repetition: bool, ns: int, p: Payload, handedUp: bool, now: int)
    requires s.nr == |s.h.rcv| % 8
    ensures var r := Acknowledge(s, repetition, ns, p, handedUp, now);
            && r == s.(nr := r.nr, lastMsg := now, lastMsgSent := r.lastMsgSent, h := r.h)
            && r.h == s.h.(wire := r.h.wire, rcv := r.h.rcv, up := r.h.up, duplicates := r.h.duplicates,
                           missed := r.h.missed)
            && r.nr == |r.h.rcv| % 8
  {
  }

  lemma AnswerKeepsWire(c: PathConf, s: PathState, repetition: bool, ns: int, p: Payload, handedUp: bool, now: int)
    requires WireKept(c, s)
    ensures WireKept(c, Acknowledge(s, repetition, ns, p, handedUp, now))
  {
    var r := Acknowledge(s, repetition, ns, p, handedUp, now);
    if ns == s.nr || repetition {
      var t := r.h.wire[|s.h.wire|];
      assert r.h.wire == s.h.wire + [t] && t.frame.RR?;
      WireGrows(c, s, r, t);
    } else {
      assert r.h.wire == s.h.wire;
    }
  }

  lemma SendRRKeepsInv(c: PathConf, s: PathState, repetition: bool, ns: int, nr: int, p: Payload, handedUp: bool,
                       now: int)
    requires LinkInv(c, s) && 0 <= nr < 8
    ensures WaitingSendable(c, s) && LinkInv(c, SendRR(c, s, repetition, ns, nr, p, handedUp, now).state)
  {
    ReceivedRRKeepsInv(c, s, nr, false, now);
    AcknowledgeKeepsInv(c, ReceivedRR(c, s, nr, false, now).state, repetition, ns, p, handedUp, now);
  }

  /** A timeout that may still repeat: the resend, then the requeue. */
  lemma TimeoutKeepsInv(c: PathConf, s: PathState, now: int)
    requires LinkInv(c, s) && s.sent != [] && s.repeat < c.repeatMax
    ensures LinkInv(c, Requeue(SendBackInfo(s, now)))
  {
    var r := Requeue(SendBackInfo(s, now));
    ResendKeepsWire(c, s, now);
    RequeueConserves(s, now);
    if !r.h.multi {
      assert r.sent == s.sent && r.waiting == s.waiting;
    }
    DriftAfterTimeout(c, s, now);
  }

  lemma RequeueConserves(s: PathState, now: int)
    requires Conserved(s) && s.sent != []
    ensures Conserved(Requeue(SendBackInfo(s, now)))
  {
    RequeueKeepsOrder(s.sent, s.waiting);
    PutTogether(s.h.acknowledged, Payloads(s.sent), s.waiting, Payloads(s.sent[..1]), Payloads(s.sent[1..]) + s.waiting);
    MoveConserves(s, Requeue(SendBackInfo(s, now)));
  }

  /** The requeue leaves the order of the unacknowledged messages as it was. */
  lemma RequeueKeepsOrder(sent: seq<Message>, waiting: seq<Payload>)
    requires sent != []
    ensures Payloads(sent[..1]) + (Payloads(sent[1..]) + waiting) == Payloads(sent) + waiting
  {
    PayloadsSlice(sent, 1);
  }

  lemma PutTogether(a: seq<Payload>, b: seq<Payload>, d: seq<Payload>, b': seq<Payload>, d': seq<Payload>)
    requires b' + d' == b + d
    ensures a + b' + d' == a + b + d
  {
    assert a + b' + d' == a + (b' + d') && a + b + d == a + (b + d);
  }

  lemma ResendKeepsWire(c: PathConf, s: PathState, now: int)
    requires QueuesFitState(c, s) && WireKept(c, s) && s.sent != []
    ensures WireKept(c, Requeue(SendBackInfo(s, now)))
  {
    var r := Requeue(SendBackInfo(s, now));
    assert s.sent[0] in s.sent;
    WireGrows(c, s, r, r.h.wire[|s.h.wire|]);
  }

  /** A timeout adds what it takes out of the queue: at most ratio-1, and one repeat is counted. */
  lemma DriftAfterTimeout(c: PathConf, s: PathState, now: int)
    requires s.sent != [] && |s.sent| <= c.ratio && s.repeat >= 0
    ensures var r := Requeue(SendBackInfo(s, now));
            && Drift(r) == Drift(s) + |s.sent| - 1
            && r.repeat == s.repeat + 1
            && (DriftBounded(c, s) ==> DriftBounded(c, r))
  {
  }

  lemma SendSARMKeepsInv(c: PathConf, s: PathState, now: int)
    requires LinkInv(c, s) && (c.maxSarm >= 1 ==> s.sarmSent < c.maxSarm)
    ensures LinkInv(c, SendSARM(s, now))
  {
    var r := SendSARM(s, now);
    WireGrows(c, s, r, r.h.wire[|s.h.wire|]);
    SameQueuesKeepInv(c, s, r);
  }

  lemma SendUAKeepsInv(c: PathConf, s: PathState, now: int)
    requires LinkInv(c, s)
    ensures LinkInv(c, SendUA(s, now))
  {
    var r := SendUA(s, now);
    WireGrows(c, s, r, r.h.wire[|s.h.wire|]);
    SameQueuesKeepInv(c, s, r);
  }
}
