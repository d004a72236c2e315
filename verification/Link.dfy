/** The link layer of one path as functions on its fields: sending with a window, retransmission,
    validation of received NR and NS, the resets. The methods of class HnzPath are proved to compute
    these functions. `now` is the clock read while the step runs. */
module Link {
  import opened HnzTypes
  import opened Modulo8

  /** New state of the path and what the function of the code returns. */
  datatype Outcome = Outcome(state: PathState, ok: bool)

  predicate IsBulle(c: PathConf, p: Payload) {
    |p| == 2 && p[0] == c.bulleSend.0 && p[1] == c.bulleSend.1
  }

  /** The guard shared by m_sendInfo and m_sendInfoImmediately. */
  predicate MaySend(c: PathConf, proto: ProtocolState, p: Payload) {
    proto == Connected || (proto == OutputConnected && IsBulle(c, p))
  }

  function SendFrame(s: PathState, f: Frame, idx: nat, now: int): PathState {
    s.(lastMsgSent := now, h := s.h.(wire := s.h.wire + [Tx(f, s.proto, idx, |s.h.rcv|)]))
  }

  function SendInfoImmediately(c: PathConf, s: PathState, p: Payload, now: int): Outcome {
    if !MaySend(c, s.proto, p) then Outcome(s, false)
    else
      var s1 := SendFrame(s, INFO(s.ns, s.nr, false, p), |s.h.txs|, now);
      Outcome(
        s1.(lastSent := if s.sent == [] then now else s.lastSent,
            sent := s.sent + [Message(s.ns, p)],
            ns := (s.ns + 1) % 8,
            h := s1.h.(txs := s.h.txs + [p])),
        true)
  }

  function SendInfo(c: PathConf, s: PathState, p: Payload, now: int): Outcome {
    if !MaySend(c, s.proto, p) then Outcome(s, false)
    else
      var s1 := s.(h := s.h.(accepted := s.h.accepted + [p], submitted := s.h.submitted + [p]));
      if |s.sent| < c.ratio then SendInfoImmediately(c, s1, p, now)
      else Outcome(s1.(waiting := s.waiting + [p]), false)
  }

  /** sendBackInfo on the oldest unacknowledged message. */
  function SendBackInfo(s: PathState, now: int): PathState
    requires s.sent != []
  {
    var s1 := s.(repeat := s.repeat + 1);
    var s2 := SendFrame(s1, INFO(s.sent[0].ns, s.nr, true, s.sent[0].payload), s.h.va, now);
    s2.(lastSent := now)
  }

  /** Everything in flight but the oldest message goes back in front of the waiting queue. */
  function Requeue(s: PathState): PathState
    requires s.sent != []
  {
    s.(sent := s.sent[..1],
       waiting := Payloads(s.sent[1..]) + s.waiting,
       h := s.h.(multi := s.h.multi || |s.sent| > 1))
  }

  predicate WaitingSendable(c: PathConf, s: PathState) {
    forall p | p in s.waiting :: MaySend(c, s.proto, p)
  }

  /** One turn of the refill loop: the head of the waiting queue is sent. */
  function RefillOnce(c: PathConf, s: PathState, now: int): PathState
    requires s.waiting != []
  {
    SendInfoImmediately(c, s, s.waiting[0], now).state.(waiting := s.waiting[1..])
  }

  function Refill(c: PathConf, s: PathState, now: int): (r: PathState)
    requires WaitingSendable(c, s)
    decreases |s.waiting|
  {
    if s.waiting != [] && |s.sent| < c.ratio then Refill(c, RefillOnce(c, s, now), now) else s
  }

  lemma RefillUnfolds(c: PathConf, s: PathState, now: int)
    requires WaitingSendable(c, s) && s.waiting != [] && |s.sent| < c.ratio
    ensures var r := RefillOnce(c, s, now);
            WaitingSendable(c, r) && |r.waiting| < |s.waiting| && Refill(c, s, now) == Refill(c, r, now)
  {
  }

  /** The acknowledged messages leave the queue; never more than there are. */
  function Pop(s: PathState, nr: int, now: int): PathState {
    PopMany(s, NROffset(s.nrr, nr), nr, now)
  }

  function PopMany(s: PathState, offset: nat, nr: int, now: int): PathState {
    var n := if offset < |s.sent| then offset else |s.sent|;
    s.(sent := s.sent[n..],
       nrr := nr,
       repeat := 0,
       lastSent := if n < |s.sent| then now else s.lastSent,
       h := s.h.(va := s.h.va + offset,
                 popped := s.h.popped + Payloads(s.sent[..n]),
                 acknowledged := s.h.acknowledged + Payloads(s.sent[..n]),
                 lost := s.h.lost || s.h.multi,
                 mark := |s.h.wire|))
  }

  function NRAccepted(c: PathConf, s: PathState, nr: int, now: int): PathState
    requires WaitingSendable(c, s)
  {
    Refill(c, Pop(s, nr, now), now)
  }

  function ReceivedRR(c: PathConf, s: PathState, nr: int, repetition: bool, now: int): Outcome
    requires WaitingSendable(c, s)
  {
    if nr == s.nrr then Outcome(s, true)
    else if IsNRValid(s.nrr, s.ns, nr) && (!repetition || s.repeat > 0) then
      Outcome(NRAccepted(c, s, nr, now), true)
    else Outcome(s, false)
  }

  /** History of an information frame whose NR is accepted: whether it is the next one in sequence, and
      whether its messages are handed up. */
  function NoteFrame(h: History, inSequence: bool, handedUp: bool, p: Payload): History {
    h.(rcv := if inSequence then h.rcv + [p] else h.rcv,
       up := if handedUp then h.up + [p] else h.up,
       duplicates := h.duplicates + (if handedUp && !inSequence then 1 else 0),
       missed := h.missed + (if inSequence && !handedUp then 1 else 0))
  }

  /** The part of m_sendRR after the NR of the frame was accepted; `handedUp` is what the caller does with
      the messages of the frame. */
  function Acknowledge(s: PathState, repetition: bool, ns: int, p: Payload, handedUp: bool, now: int): PathState {
    var s0 := s.(h := NoteFrame(s.h, ns == s.nr, handedUp, p));
    var s1 :=
      if ns == s.nr then
        var t := s0.(nr := (s.nr + 1) % 8);
        SendFrame(t, RR(t.nr, repetition), 0, now)
      else if repetition then SendFrame(s0, RR(s.nr, true), 0, now)
      else s0;
    s1.(lastMsg := now)
  }

  function SendRR(c: PathConf, s: PathState, repetition: bool, ns: int, nr: int, p: Payload, handedUp: bool,
                  now: int): Outcome
    requires WaitingSendable(c, s)
  {
    var r := ReceivedRR(c, s, nr, false, now);
    if r.ok then Outcome(Acknowledge(r.state, repetition, ns, p, handedUp, now), true) else r
  }

  function SendUA(s: PathState, now: int): PathState {
    SendFrame(s, UA, 0, now)
  }

  function SendSARM(s: PathState, now: int): PathState {
    SendFrame(s, SARM, 0, now).(sarmSent := s.sarmSent + 1, lastSarm := now)
  }

  function ResetSarmCounters(s: PathState, now: int): PathState {
    s.(sarmSent := 0, lastMsg := now)
  }

  function ResetOutputVariables(s: PathState): PathState {
    s.(ns := 0, nrr := 0, repeat := 0,
       h := s.h.(submitted := [], txs := [], popped := [], va := 0, multi := false, lost := false,
                mark := |s.h.wire|))
  }

  function ResetInputVariables(s: PathState, now: int): PathState {
    s.(nr := 0, lastMsg := now, h := s.h.(rcv := [], up := [], duplicates := 0, missed := 0))
  }

  function DiscardMessages(s: PathState): PathState {
    s.(sent := [], waiting := [], h := s.h.(discarded := s.h.discarded + Payloads(s.sent) + s.waiting))
  }

  /** m_registerCommandIfSent: the newest command comes first. */
  function RegisterCommand(c: PathConf, s: PathState, sent: bool, kind: CommandKind, addr: int, now: int): PathState {
    if sent then s.(commands := [Command(kind, addr, now + c.ackTimeMax)] + s.commands) else s
  }
}
