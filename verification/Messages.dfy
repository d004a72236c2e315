/** Splitting the payload of an information frame into application messages. */
module Messages {
  import opened HnzTypes

  const TM4_CODE: Byte := 0x02
  const TCACK_CODE: Byte := 0x09
  const TVCACK_CODE: Byte := 0x0a
  const TSCE_CODE: Byte := 0x0b
  const TMN_CODE: Byte := 0x0c
  const MODULO_CODE: Byte := 0x0f
  const TSCG_CODE: Byte := 0x16

  /** Length of a message with one of the listed codes, 0 for any other code. */
  function CodeLength(t: Byte): nat {
    if t == TM4_CODE then 6
    else if t == TSCE_CODE then 5
    else if t == TSCG_CODE then 6
    else if t == TMN_CODE then 7
    else if t == MODULO_CODE then 2
    else if t == TCACK_CODE then 3
    else if t == TVCACK_CODE then 4
    else 0
  }

  /** The BULLE is looked for after the codes, so a BULLE that starts with a code is never recognised. */
  predicate StartsWithBulle(bulle: (Byte, Byte), data: Payload) {
    |data| >= 2 && CodeLength(data[0]) == 0 && data[0] == bulle.0 && data[1] == bulle.1
  }

  /** Length of the first message of `data`. */
  function FirstLength(bulle: (Byte, Byte), data: Payload): nat
    requires data != []
  {
    if CodeLength(data[0]) != 0 then CodeLength(data[0])
    else if StartsWithBulle(bulle, data) then 2
    else |data|
  }

  /** What the code takes for granted: no message is cut, and a last single byte is not the first byte
      of a BULLE (the code would compare the checksum byte behind it). */
  predicate Uncut(bulle: (Byte, Byte), data: Payload)
    decreases |data|
  {
    && data != []
    && (|data| == 1 ==> CodeLength(data[0]) != 0 || data[0] != bulle.0)
    && var n := FirstLength(bulle, data);
       n <= |data| && (n < |data| ==> Uncut(bulle, data[n..]))
  }

  function Extract(bulle: (Byte, Byte), data: Payload): seq<Payload>
    requires Uncut(bulle, data)
    decreases |data|
  {
    var n := FirstLength(bulle, data);
    if n == |data| then [data] else [data[..n]] + Extract(bulle, data[n..])
  }

  function Flatten(msgs: seq<Payload>): Payload {
    if msgs == [] then [] else msgs[0] + Flatten(msgs[1..])
  }

  predicate Known(bulle: (Byte, Byte), m: Payload) {
    && m != []
    && if CodeLength(m[0]) != 0 then |m| == CodeLength(m[0]) else |m| == 2 && StartsWithBulle(bulle, m)
  }

  predicate UnknownTail(bulle: (Byte, Byte), m: Payload) {
    m != [] && CodeLength(m[0]) == 0 && !StartsWithBulle(bulle, m) && (|m| == 1 ==> m[0] != bulle.0)
  }

  /** A list of known messages, of which the last one may be of an unknown kind. */
  predicate MessageList(bulle: (Byte, Byte), msgs: seq<Payload>) {
    && msgs != []
    && (forall i | 0 <= i < |msgs| - 1 :: Known(bulle, msgs[i]))
    && (Known(bulle, msgs[|msgs| - 1]) || UnknownTail(bulle, msgs[|msgs| - 1]))
  }

  /** Splitting undoes concatenation. */
  lemma {:induction false} ExtractOfFlatten(bulle: (Byte, Byte), msgs: seq<Payload>)
    requires MessageList(bulle, msgs)
    ensures Uncut(bulle, Flatten(msgs)) && Extract(bulle, Flatten(msgs)) == msgs
    decreases |msgs|
  {
    var data := Flatten(msgs);
    if |msgs| == 1 {
      assert data == msgs[0];
    } else {
      var rest := msgs[1..];
      assert forall i | 0 <= i < |rest| :: rest[i] == msgs[i + 1];
      ExtractOfFlatten(bulle, rest);
      var n := |msgs[0]|;
      assert Known(bulle, msgs[0]);
      assert data[0] == msgs[0][0] && (n == 2 ==> data[1] == msgs[0][1]);
      assert FirstLength(bulle, data) == n;
      assert data[..n] == msgs[0] && data[n..] == Flatten(rest);
      assert msgs == [msgs[0]] + rest;
    }
  }

  lemma FirstIsKnown(bulle: (Byte, Byte), data: Payload)
    requires data != [] && FirstLength(bulle, data) < |data|
    ensures Known(bulle, data[..FirstLength(bulle, data)])
  {
  }

  /** Concatenation undoes splitting: no byte of the payload is lost, added or moved, and every piece is
      a whole message. */
  lemma {:induction false} FlattenOfExtract(bulle: (Byte, Byte), data: Payload)
    requires Uncut(bulle, data)
    ensures Flatten(Extract(bulle, data)) == data && MessageList(bulle, Extract(bulle, data))
    decreases |data|
  {
    var n := FirstLength(bulle, data);
    if n == |data| {
      assert [data][1..] == [] && data + [] == data;
    } else {
      var rest := Extract(bulle, data[n..]);
      FlattenOfExtract(bulle, data[n..]);
      FirstIsKnown(bulle, data);
      KnownInFront(bulle, data[..n], rest);
      assert data == data[..n] + data[n..];
    }
  }

  lemma KnownInFront(bulle: (Byte, Byte), m: Payload, rest: seq<Payload>)
    requires Known(bulle, m) && MessageList(bulle, rest)
    ensures MessageList(bulle, [m] + rest) && Flatten([m] + rest) == m + Flatten(rest)
  {
    var msgs := [m] + rest;
    assert msgs[1..] == rest;
    forall i | 0 <= i < |msgs| - 1 ensures Known(bulle, msgs[i]) {
      assert i > 0 ==> msgs[i] == rest[i - 1];
    }
  }
}
