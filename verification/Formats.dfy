/** The messages of the remote station, byte by byte, and the payloads that carry several of them. */
module Formats {
  import opened HnzTypes
  import opened Messages

  datatype Application =
    | Tm4(group: Byte, v1: Byte, v2: Byte, v3: Byte, v4: Byte)                  // four measurements
    | Tmn(group: Byte, v1: Byte, v2: Byte, v3: Byte, v4: Byte, flags: Byte)     // measurements of eight or sixteen bits
    | Tsce(ado: Byte, bits: Byte, high: Byte, low: Byte)                        // change of a TS, with its time
    | Tscg(block: Byte, b1: Byte, b2: Byte, b3: Byte, b4: Byte)                 // sixteen TS of a GI
    | TcAck(ado: Byte, bits: Byte)
    | TvcAck(ad: Byte, value: Byte, sign: Byte)
    | Modulo(section: Byte)

  function Encode(a: Application): Payload {
    match a
    case Tm4(group, v1, v2, v3, v4) => [0x02, group, v1, v2, v3, v4]
    case Tmn(group, v1, v2, v3, v4, flags) => [0x0c, group, v1, v2, v3, v4, flags]
    case Tsce(ado, bits, high, low) => [0x0b, ado, bits, high, low]
    case Tscg(block, b1, b2, b3, b4) => [0x16, block, b1, b2, b3, b4]
    case TcAck(ado, bits) => [0x09, ado, bits]
    case TvcAck(ad, value, sign) => [0x0a, ad, value, sign]
    case Modulo(section) => [0x0f, section]
  }

  function EncodeAll(apps: seq<Application>): (ms: seq<Payload>)
    ensures |ms| == |apps| && forall k | 0 <= k < |apps| :: ms[k] == Encode(apps[k])
  {
    seq(|apps|, k requires 0 <= k < |apps| => Encode(apps[k]))
  }

  /** Whatever messages a payload carries, whole, splitting it gives back exactly these, in order: the lengths the
      code knows are those of the formats. */
  lemma SplitsIntoMessages(bulle: (Byte, Byte), apps: seq<Application>)
    requires apps != []
    ensures Uncut(bulle, Flatten(EncodeAll(apps))) && Extract(bulle, Flatten(EncodeAll(apps))) == EncodeAll(apps)
  {
    forall k | 0 <= k < |apps| ensures Known(bulle, EncodeAll(apps)[k]) {
      FormatIsKnown(bulle, apps[k]);
    }
    ExtractOfFlatten(bulle, EncodeAll(apps));
  }

  lemma FormatIsKnown(bulle: (Byte, Byte), a: Application)
    ensures Known(bulle, Encode(a))
  {
  }
}
