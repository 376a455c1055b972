/**
  The six datagrams of the Semtech packet forwarder protocol (backend/pktfwd/structs.go). JSON is
  a codec given from outside, of which only invertibility and non-empty output are assumed.
 */
module Packets {
  import opened Machine
  import opened Euis

  datatype Option<+T> = None | Some(value: T)

  datatype Json<!P> = Json(encode: P -> Bytes, decode: Bytes -> Option<P>)

  ghost predicate Invertible<P(!new)>(j: Json<P>) {
    forall p: P :: j.encode(p) != [] && j.decode(j.encode(p)) == Some(p)
  }

  datatype Kind = PUSH_DATA | PUSH_ACK | PULL_DATA | PULL_RESP | PULL_ACK | TX_ACK

  type Word = t: int | 0 <= t < 0x1_0000

  datatype Packet<P> =
    | PushData(version: Byte, token: Word, mac: Eui, payload: P)
    | PushACK(version: Byte, token: Word)
    | PullData(version: Byte, token: Word, mac: Eui)
    | PullResp(version: Byte, token: Word, payload: P)
    | PullACK(version: Byte, token: Word)
    | TXACK(version: Byte, token: Word, mac: Eui, ack: Option<P>)

  datatype Error = TooShort | WrongLength | IdentifierMismatch | InvalidVersion | BadJson

  datatype Result<+T> = Ok(value: T) | Err(error: Error)

  function KindOf<P>(p: Packet<P>): Kind {
    match p
    case PushData(_, _, _, _) => PUSH_DATA
    case PushACK(_, _) => PUSH_ACK
    case PullData(_, _, _) => PULL_DATA
    case PullResp(_, _, _) => PULL_RESP
    case PullACK(_, _) => PULL_ACK
    case TXACK(_, _, _, _) => TX_ACK
  }

  function Code(k: Kind): Byte {
    match k
    case PUSH_DATA => 0
    case PUSH_ACK => 1
    case PULL_DATA => 2
    case PULL_RESP => 3
    case PULL_ACK => 4
    case TX_ACK => 5
  }

  predicate Supported(version: Byte) {
    version == 1 || version == 2
  }

  /** Version, token in little-endian order, and packet identifier. */
  function Header(version: Byte, token: Word, k: Kind): (h: Bytes)
    ensures |h| == 4
  {
    [version, token % 256, token / 256, Code(k)]
  }

  function Token(data: Bytes): Word
    requires |data| >= 4
  {
    var low: int, high: int := data[1], data[2];
    low + 256 * high
  }

  function Marshal<P>(j: Json<P>, p: Packet<P>): Bytes {
    match p
    case PushData(v, token, mac, payload) => Header(v, token, PUSH_DATA) + mac + j.encode(payload)
    case PushACK(v, token) => Header(v, token, PUSH_ACK)
    case PullData(v, token, mac) => Header(v, token, PULL_DATA) + mac
    case PullResp(v, token, payload) => Header(v, if v == 1 then 0 else token, PULL_RESP) + j.encode(payload)
    case PullACK(v, token) => Header(v, token, PULL_ACK)
    case TXACK(v, token, mac, ack) =>
      Header(v, token, TX_ACK) + mac + if ack.Some? then j.encode(ack.value) else []
  }

  function CheckLength(n: nat, k: Kind): (r: Result<()>)
    ensures r.Ok? ==> n >= 4
  {
    match k
    case PUSH_DATA => if n < 13 then Err(TooShort) else Ok(())
    case PUSH_ACK => if n != 4 then Err(WrongLength) else Ok(())
    case PULL_DATA => if n != 12 then Err(WrongLength) else Ok(())
    case PULL_RESP => if n < 5 then Err(TooShort) else Ok(())
    case PULL_ACK => if n != 4 then Err(WrongLength) else Ok(())
    case TX_ACK => if n < 12 then Err(TooShort) else Ok(())
  }

  /** Length, then identifier, then version: the order in which every decoder looks. */
  function CheckHeader(data: Bytes, k: Kind): Result<()> {
    match CheckLength(|data|, k)
    case Err(e) => Err(e)
    case Ok(_) =>
      if data[3] != Code(k) then Err(IdentifierMismatch)
      else if !Supported(data[0]) then Err(InvalidVersion)
      else Ok(())
  }

  /** UnmarshalBinary of the packet type k, into a fresh packet. */
  function Unmarshal<P>(j: Json<P>, k: Kind, data: Bytes): Result<Packet<P>> {
    match CheckHeader(data, k)
    case Err(e) => Err(e)
    case Ok(_) =>
      var v, token := data[0], Token(data);
      match k
      case PUSH_ACK => Ok(PushACK(v, token))
      case PULL_ACK => Ok(PullACK(v, token))
      case PULL_DATA => Ok(PullData(v, token, data[4..12]))
      case PULL_RESP =>
        (match j.decode(data[4..]) case None => Err(BadJson) case Some(p) => Ok(PullResp(v, token, p)))
      case PUSH_DATA =>
        (match j.decode(data[12..]) case None => Err(BadJson) case Some(p) => Ok(PushData(v, token, data[4..12], p)))
      case TX_ACK =>
        if |data| == 12 then Ok(TXACK(v, token, data[4..12], None))
        else (match j.decode(data[12..]) case None => Err(BadJson) case Some(p) => Ok(TXACK(v, token, data[4..12], Some(p))))
  }

  function GetPacketType(data: Bytes): Result<Byte> {
    if |data| < 4 then Err(TooShort)
    else if !Supported(data[0]) then Err(InvalidVersion)
    else Ok(data[3])
  }

  /** What of a packet travels: version 1 has no token in a PULL_RESP. */
  function Carried<P>(p: Packet<P>): Packet<P> {
    if p.PullResp? && p.version == 1 then PullResp(p.version, 0, p.payload) else p
  }

  lemma HeaderReads(h: Bytes, rest: Bytes, version: Byte, token: Word, k: Kind)
    requires h == Header(version, token, k)
    ensures var d := h + rest; d[0] == version && d[3] == Code(k) && Token(d) == token && d[4..] == rest
  {
  }

  lemma MacReads(h: Bytes, mac: Eui, rest: Bytes)
    requires |h| == 4
    ensures (h + mac + rest)[4..12] == mac && (h + mac + rest)[12..] == rest
    ensures h + mac + rest == h + (mac + rest)
  {
  }

  /** A packet of a supported version survives the wire; any other version is refused by its decoder. */
  lemma RoundTrip<P(!new)>(j: Json<P>, p: Packet<P>)
    requires Invertible(j)
    ensures Unmarshal(j, KindOf(p), Marshal(j, p)) == if Supported(p.version) then Ok(Carried(p)) else Err(InvalidVersion)
  {
    hide Token;
    var h := Marshal(j, p)[..4];
    var rest := Marshal(j, p)[4..];
    assert Marshal(j, p) == h + rest;
    HeaderReads(h, rest, p.version, Carried(p).token, KindOf(p));
    match p {
      case PushData(_, _, mac, payload) => MacReads(h, mac, j.encode(payload));
      case TXACK(_, _, mac, ack) => MacReads(h, mac, if ack.Some? then j.encode(ack.value) else []);
      case PullData(_, _, mac) => assert Marshal(j, p)[4..12] == mac;
      case _ =>
    }
  }

  /**
    The layout of the protocol: version, token with its low byte first (zero in a PULL_RESP of
    version 1), the identifiers 0 to 5, then the gateway's address if there is one, then JSON.
   */
  lemma Layout<P>(j: Json<P>, p: Packet<P>)
    ensures var d := Marshal(j, p);
            var token: int := if p.PullResp? && p.version == 1 then 0 else p.token;
            && |d| >= 4 && d[0] == p.version && d[1] == token % 256 && d[2] == token / 256
            && d[3] == (if p.PushData? then 0 else if p.PushACK? then 1 else if p.PullData? then 2
                        else if p.PullResp? then 3 else if p.PullACK? then 4 else 5)
            && d[4..] == match p
                         case PushData(_, _, mac, payload) => mac + j.encode(payload)
                         case PullData(_, _, mac) => mac
                         case PullResp(_, _, payload) => j.encode(payload)
                         case TXACK(_, _, mac, ack) => mac + if ack.Some? then j.encode(ack.value) else []
                         case _ => []
  {
    hide Marshal;
    MarshalIsHeaderAndTail(j, p);
    var header := Header(p.version, Carried(p).token, KindOf(p));
    assert (header + Tail(j, p))[4..] == Tail(j, p);
  }

  /**
    A decoder looks at the length, then at the identifier, then at the version, which must be 1 or
    2, and last at the JSON; a datagram that passes it reads as its layout says.
   */
  lemma EveryDecoding<P>(j: Json<P>, k: Kind, data: Bytes)
    ensures var n, r := |data|, Unmarshal(j, k, data);
            var fits := match k case PUSH_DATA => n >= 13 case PUSH_ACK => n == 4 case PULL_DATA => n == 12
                                case PULL_RESP => n >= 5 case PULL_ACK => n == 4 case TX_ACK => n >= 12;
            var number := match k case PUSH_DATA => 0 case PUSH_ACK => 1 case PULL_DATA => 2
                                  case PULL_RESP => 3 case PULL_ACK => 4 case TX_ACK => 5;
            if !fits then r == Err(if k.PUSH_DATA? || k.PULL_RESP? || k.TX_ACK? then TooShort else WrongLength)
            else if data[3] != number then r == Err(IdentifierMismatch)
            else if data[0] != 1 && data[0] != 2 then r == Err(InvalidVersion)
            else
              var version, token := data[0], data[1] as int + 256 * data[2] as int;
              var json := j.decode(data[if k.PULL_RESP? then 4 else if n >= 12 then 12 else n..]);
              match k
              case PUSH_DATA => r == if json.None? then Err(BadJson) else Ok(PushData(version, token, data[4..12], json.value))
              case PUSH_ACK => r == Ok(PushACK(version, token))
              case PULL_DATA => r == Ok(PullData(version, token, data[4..12]))
              case PULL_RESP => r == if json.None? then Err(BadJson) else Ok(PullResp(version, token, json.value))
              case PULL_ACK => r == Ok(PullACK(version, token))
              case TX_ACK =>
                r == if n == 12 then Ok(TXACK(version, token, data[4..12], None))
                     else if json.None? then Err(BadJson) else Ok(TXACK(version, token, data[4..12], json))
  {
  }

  /** The type of a datagram is its fourth byte, provided that it has one and a version of 1 or 2. */
  lemma EveryPacketType(data: Bytes)
    ensures GetPacketType(data) ==
            if |data| < 4 then Err(TooShort) else if data[0] != 1 && data[0] != 2 then Err(InvalidVersion) else Ok(data[3])
  {
  }

  /** At most one decoder takes a datagram, the one that GetPacketType names. */
  lemma DecodersAreExclusive<P>(j: Json<P>, k: Kind, data: Bytes)
    requires Unmarshal(j, k, data).Ok?
    ensures GetPacketType(data) == Ok(Code(k)) && KindOf(Unmarshal(j, k, data).value) == k
    ensures forall other: Kind :: Unmarshal(j, other, data).Ok? ==> other == k
  {
  }

  /**
    A decoded packet marshals to the datagram it came from, up to the JSON text and, in a PULL_RESP
    of version 1, the two bytes that version leaves unused.
   */
  lemma DecodedReproduces<P>(j: Json<P>, k: Kind, data: Bytes)
    requires Unmarshal(j, k, data).Ok?
    ensures var p := Unmarshal(j, k, data).value;
            var again := Marshal(j, p);
            && (p.PushACK? || p.PullACK? || p.PullData? || (p.TXACK? && p.ack.None?) ==> again == data)
            && (p.PushData? || p.TXACK? ==> again[..12] == data[..12])
            && (p.PullResp? ==> (again[..4] == data[..4] <==> data[0] == 2 || (data[1] == 0 && data[2] == 0)))
  {
  }

  // ---------------------------------------------------------------- the code

  /** What follows the four header bytes. */
  function Tail<P>(j: Json<P>, p: Packet<P>): Bytes {
    match p
    case PushData(_, _, mac, payload) => mac + j.encode(payload)
    case PullData(_, _, mac) => mac
    case PullResp(_, _, payload) => j.encode(payload)
    case TXACK(_, _, mac, ack) => mac + if ack.Some? then j.encode(ack.value) else []
    case _ => []
  }

  /** MarshalBinary: the header is stored byte by byte, the rest is appended. */
  method MarshalBinary<P>(j: Json<P>, p: Packet<P>) returns (out: array<Byte>)
    ensures fresh(out) && out[..] == Marshal(j, p)
  {
    var tail := Tail(j, p);
    out := new Byte[4 + |tail|];
    PutHeader(out, p);
    ghost var header := out[..4];
    hide Marshal, Tail, Header, Carried;
    for i := 0 to |tail|
      invariant out[..4 + i] == header + tail[..i]
    {
      out[4 + i] := tail[i];
    }
    assert out[..] == out[..4 + |tail|] && tail[..|tail|] == tail;
    MarshalIsHeaderAndTail(j, p);
  }

  /** The header bytes; version 1 leaves the token of a PULL_RESP unwritten. */
  method PutHeader<P>(out: array<Byte>, p: Packet<P>)
    requires out.Length >= 4
    modifies out
    ensures out[..4] == Header(p.version, Carried(p).token, KindOf(p)) && out[4..] == old(out[4..])
  {
    out[0], out[1], out[2] := p.version, 0, 0;
    if !(p.PullResp? && p.version == 1) {
      out[1], out[2] := p.token % 256, p.token / 256;
    }
    out[3] := Code(KindOf(p));
  }

  lemma MarshalIsHeaderAndTail<P>(j: Json<P>, p: Packet<P>)
    ensures Marshal(j, p) == Header(p.version, Carried(p).token, KindOf(p)) + Tail(j, p)
  {
  }

  /** The loop that copies the gateway address out of a datagram. */
  method ReadMAC(data: Bytes) returns (mac: array<Byte>)
    requires |data| >= 12
    ensures fresh(mac) && mac[..] == data[4..12]
  {
    mac := new Byte[8];
    for i := 0 to 8
      invariant mac[..i] == data[4..4 + i]
    {
      mac[i] := data[4 + i];
    }
  }
}
