/** The entities shared by the link layer, the arbiter and the GI supervisor. */
module HnzTypes {

  datatype Option<+T> = None | Some(value: T)

  type Byte = b: int | 0 <= b < 256

  type Payload = seq<Byte>

  const DAY_MS: nat := 86400000

  const HOUR_MS: nat := 3600000

  datatype ConnectionEvent =
    | TcpCnxEstablished
    | ReceivedSarm
    | ReceivedUa
    | ToRecv
    | MaxSend
    | TcpCnxLost
    | ToSend
    | ReceivedInfo
    | SendTc
    | ToUa
    | MaxSarmSent
    | ToLastCg
    | ToTcAck

  datatype ProtocolState = Connection | InputConnected | OutputConnected | Connected

  datatype ConnectionState = Disconnected | PendingHnz | Passive | Active

  datatype ConnectionStatus = NotConnected | Started

  datatype GiStatus = GiIdle | GiStarted | GiInProgress | GiFailed | GiFinished

  /** A frame of the HNZ link layer, after its control byte has been read. */
  datatype Frame =
    | SARM
    | UA
    | RR(ackNr: int, final: bool)
    | INFO(ns: int, nr: int, poll: bool, payload: Payload)

  /** An information message that was sent and waits for its acknowledgement. */
  datatype Message = Message(ns: int, payload: Payload)

  datatype CommandKind = TC | TVC

  /** A command that was sent and waits for the acknowledgement of the remote station. */
  datatype Command = Command(kind: CommandKind, addr: int, deadline: int)

  /** One frame put on the wire, with the protocol state at that instant. `idx` and `ack` are
      history: the unbounded number of the information message the frame carries, and the number
      of messages accepted in sequence when it was sent. */
  datatype Transmission = Tx(frame: Frame, proto: ProtocolState, idx: nat, ack: nat)

  /** What a path did so far. Nothing in the code reads it; the properties are stated with it.
      The first four fields cover the whole life of the path, the next four start again when the input
      variables are reset, the remaining ones when the output variables are reset. */
  datatype History = History(
    wire: seq<Transmission>,       // every frame sent, in order
    accepted: seq<Payload>,        // messages that m_sendInfo took, sent or delayed
    acknowledged: seq<Payload>,    // messages popped because an NR acknowledged them
    discarded: seq<Payload>,       // messages dropped by discardMessages
    rcv: seq<Payload>,             // payloads of the frames received in sequence (NS = m_nr)
    up: seq<Payload>,              // payloads of the frames whose messages were handed up
    duplicates: nat,               // frames handed up although they were not in sequence
    missed: nat,                   // frames received in sequence that were not handed up
    submitted: seq<Payload>,       // accepted in this session
    txs: seq<Payload>,             // first transmissions of this session
    popped: seq<Payload>,          // acknowledged in this session
    va: nat,                       // unbounded counterpart of m_NRR
    multi: bool,                   // a timeout put two or more messages in flight back to waiting
    lost: bool,                    // an NR was accepted after such a timeout
    mark: nat                      // length of `wire` at the last accepted NR or output reset
  )

  /** Configuration of one path. `repeatMax` is the field repeat_max, the configured value minus one. */
  datatype PathConf = PathConf(
    ratio: nat,
    repeatMax: int,
    maxSarm: nat,
    inaccTimeout: nat,
    repeatTimeout: nat,
    bulleTime: nat,
    bulleSend: (Byte, Byte),
    bulleReceive: (Byte, Byte),
    ackTimeMax: nat)

  /** The fields of one HNZPath. */
  datatype PathState = PathState(
    proto: ProtocolState,
    conn: ConnectionState,
    tcp: bool,
    sent: seq<Message>,
    waiting: seq<Payload>,
    commands: seq<Command>,
    nr: int,
    ns: int,
    nrr: int,
    repeat: int,
    sarmSent: int,
    lastSent: int,
    lastMsg: int,
    lastMsgSent: int,
    lastSarm: int,
    lastConnected: int,
    h: History)

  function Payloads(ms: seq<Message>): (ps: seq<Payload>)
    ensures |ps| == |ms|
    ensures forall i | 0 <= i < |ms| :: ps[i] == ms[i].payload
  {
    seq(|ms|, i requires 0 <= i < |ms| => ms[i].payload)
  }

  const EMPTY_HISTORY := History([], [], [], [], [], [], 0, 0, [], [], [], 0, false, false, 0)

  // The path before its constructor body runs: the field initialisers of the class.
  const FRESH_PATH :=
    PathState(Connection, Disconnected, false, [], [], [], 0, 0, 0, 0, 0, 0, 0, 0, 0, 0, EMPTY_HISTORY)
}
