/** The two header bytes of a frame: station address with the direction bit, control byte. */
module Codec {
  import opened HnzTypes

  const UA_CODE: Byte := 0x63
  const SARM_CODE: Byte := 0x0f

  /** The control byte of a frame this side sends. */
  function Control(f: Frame): Byte
    requires Numbers(f)
  {
    match f
    case SARM => SARM_CODE
    case UA => UA_CODE
    case RR(nr, final) => 0x01 + nr * 0x20 + (if final then 0x10 else 0)
    case INFO(ns, nr, poll, _) => nr * 0x20 + (if poll then 0x10 else 0) + ns * 2
  }

  /** The numbers of a frame are on three bits. */
  predicate Numbers(f: Frame) {
    match f
    case RR(nr, _) => 0 <= nr < 8
    case INFO(ns, nr, _, _) => 0 <= ns < 8 && 0 <= nr < 8
    case _ => true
  }

  function Content(f: Frame): Payload {
    if f.INFO? then f.payload else []
  }

  /** Frame as this side sends it: RR and UA with the address of the station (PA), the others with the
      address of the center (ARP). */
  function Sent(station: nat, f: Frame): Payload
    requires Numbers(f)
  {
    [(station * 4 + (if f.RR? || f.UA? then 1 else 3)) % 256, Control(f)] + Content(f)
  }

  /** The same frame as the remote station sends it: the direction bit is the other one. */
  function SentByPeer(station: nat, f: Frame): Payload
    requires Numbers(f)
  {
    [(station * 4 + (if f.RR? || f.UA? then 3 else 1)) % 256, Control(f)] + Content(f)
  }

  /** m_analyze_frame, up to the choice of the handler; the checksum is already removed. None when the
      frame is ignored because of its address or its direction. */
  function Analyze(station: nat, data: Payload): Option<Frame>
    requires |data| >= 2
  {
    var t := data[1];
    var expected := if t == UA_CODE then 1 else if t != SARM_CODE && t % 2 != 0 then 1 else 0;
    if data[0] / 4 != station || data[0] / 2 % 2 != expected then None
    else if t == UA_CODE then Some(UA)
    else if t == SARM_CODE then Some(SARM)
    else if t % 2 == 0 then Some(INFO(t / 2 % 8, t / 32, t / 16 % 2 == 1, data[2..]))
    else Some(RR(t / 32, t / 16 % 2 == 1))
  }

  /** The control byte alone tells the frames apart: an RR is never mistaken for a UA or a SARM. */
  lemma ControlFields(f: Frame)
    requires Numbers(f)
    ensures var t := Control(f);
            match f
            case SARM => t == SARM_CODE
            case UA => t == UA_CODE
            case RR(nr, final) => t % 2 == 1 && t != UA_CODE && t != SARM_CODE && t / 32 == nr && (t / 16 % 2 == 1 <==> final)
            case INFO(ns, nr, poll, _) => t % 2 == 0 && t / 2 % 8 == ns && t / 32 == nr && (t / 16 % 2 == 1 <==> poll)
  {
    match f
    case RR(nr, final) => Fields(nr, if final then 1 else 0, 0, 1);
    case INFO(ns, nr, poll, _) => Fields(nr, if poll then 1 else 0, ns, 0);
    case _ =>
  }

  /** Number, poll or final bit, number, kind: the four fields of the byte. */
  lemma Fields(nr: nat, bit: nat, ns: nat, kind: nat)
    requires nr < 8 && bit < 2 && ns < 8 && kind < 2
    ensures var t := kind + nr * 32 + bit * 16 + ns * 2;
            t % 2 == kind && t / 32 == nr && t / 16 % 2 == bit && t / 2 % 8 == ns
  {
    var t := kind + nr * 32 + bit * 16 + ns * 2;
    assert t / 2 == 8 * (nr * 2 + bit) + ns;
    assert t / 16 == nr * 2 + bit;
  }

  /** A frame of the peer is read back as it was meant exactly when the station number fits six bits;
      the configuration also lets 64 through. */
  lemma ReadBackIff(station: nat, f: Frame)
    requires Numbers(f)
    ensures Analyze(station, SentByPeer(station, f)) == Some(f) <==> station < 64
  {
    ControlFields(f);
    var data := SentByPeer(station, f);
    assert data[2..] == Content(f);
    assert station < 64 ==> data[0] / 4 == station;
  }

  /** A side never takes its own frames, sent back to it, for frames of the peer. */
  lemma OwnFramesIgnored(station: nat, f: Frame)
    requires Numbers(f)
    ensures Analyze(station, Sent(station, f)) == None
  {
    ControlFields(f);
    var data := Sent(station, f);
    assert station < 64 ==> data[0] / 2 % 2 == (if f.RR? || f.UA? then 0 else 1);
  }
}
