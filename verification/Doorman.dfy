/** The doorman's wire format (app/doorman_server.py): VarInts of at most five
    bytes, and packets that carry their length as a VarInt. */
module Doorman {
  import opened Common
  import opened Wire

  const MAX_PACKET := 32768
  const MAX_VARINT_BYTES := 5

  datatype Read<+T> = Ok(value: T, rest: Bytes) | Truncated | TooLong | OutOfBounds

  function Power(n: nat): nat
    ensures Power(n) > 0
  {
    if n == 0 then 1 else 128 * Power(n - 1)
  }

  /** Seven bits a byte, lowest first, the top bit set on all but the last. */
  function Encoded(v: nat): Bytes {
    if v < 128 then [v] else [v % 128 + 128] + Encoded(v / 128)
  }

  function Decoded(data: Bytes, left: nat): Read<nat> {
    if left == 0 then TooLong
    else if data == [] then Truncated
    else if data[0] < 128 then Ok(data[0], data[1..])
    else Scaled(data[0] % 128, 128, Decoded(data[1..], left - 1))
  }

  /** The digits read so far, below those still to come. */
  function Scaled(low: nat, base: nat, r: Read<nat>): Read<nat> {
    if r.Ok? then Ok(low + base * r.value, r.rest) else r
  }

  lemma EncodedStep(v: nat)
    ensures Encoded(v) == if v / 128 == 0 then [v % 128] else [v % 128 + 128] + Encoded(v / 128)
  {
  }

  /** `_encode_varint`: ends for every value, and writes what `Encoded` says. */
  method EncodeVarint(value: nat) returns (out: Bytes)
    ensures out == Encoded(value)
  {
    hide Encoded;
    out := [];
    var v := value;
    while true
      invariant out + Encoded(v) == Encoded(value)
      decreases v
    {
      EncodedStep(v);
      var byte := v % 128;
      v := v / 128;
      if v == 0 {
        out := out + [byte];
        return;
      }
      out := out + [byte + 128];
    }
  }

  /** Byte `i` has the digit of weight 128^i, and says whether more follow. */
  lemma {:induction false} VarintDigits(v: nat, i: nat)
    requires i < |Encoded(v)|
    ensures Encoded(v)[i] % 128 == v / Power(i) % 128
    ensures Encoded(v)[i] >= 128 <==> i + 1 < |Encoded(v)|
  {
    if i == 0 {
      assert v >= 128 ==> |Encoded(v / 128)| > 0;
    } else {
      VarintDigits(v / 128, i - 1);
      DivideTwice(v, Power(i - 1));
    }
  }

  lemma DivideTwice(v: nat, p: nat)
    requires 0 < p
    ensures v / 128 / p == v / (128 * p)
  {
    var a, r := v / 128, v % 128;
    var q, s := a / p, a % p;
    assert v == 128 * (q * p + s) + r;
    assert v == (128 * p) * q + (128 * s + r);
    assert 0 <= 128 * s + r < 128 * p;
    Quotient(v, 128 * p, q, 128 * s + r);
  }

  lemma Quotient(v: nat, d: nat, q: nat, r: nat)
    requires 0 < d && r < d && v == d * q + r
    ensures v / d == q
  {
    var k := v / d - q;
    assert v == d * (v / d) + v % d;
    assert d * k == r - v % d;
    Scale(d, k);
  }

  lemma Scale(d: int, k: int)
    requires 0 < d
    ensures 1 <= k ==> d <= d * k
    ensures k <= -1 ==> d * k <= -d
  {
  }

  /** 300 on the wire. */
  lemma ThreeHundred()
    ensures Encoded(300) == [0xAC, 0x02]
  {
    assert Encoded(2) == [2];
  }

  lemma {:induction false} RoundTrip(v: nat, rest: Bytes, left: nat)
    requires 0 < left
    ensures Decoded(Encoded(v) + rest, left) == if v < Power(left) then Ok(v, rest) else TooLong
  {
    var data := Encoded(v) + rest;
    if v < 128 {
      assert data[1..] == rest;
      assert Power(left) >= 128;
    } else if left == 1 {
      assert Power(1) == 128 * Power(0);
    } else {
      RoundTrip(v / 128, rest, left - 1);
      assert data[1..] == Encoded(v / 128) + rest;
      assert Power(1) == 128 * Power(0);
    }
  }

  /** A VarInt is read back exactly when it fits in 35 bits, and refused above. */
  lemma VarintRoundTrip(v: nat, rest: Bytes)
    ensures Decoded(Encoded(v) + rest, MAX_VARINT_BYTES) == if v < 0x8_0000_0000 then Ok(v, rest) else TooLong
  {
    RoundTrip(v, rest, MAX_VARINT_BYTES);
    assert Power(5) == 0x8_0000_0000 by {
      assert Power(1) == 128 && Power(2) == 16384 && Power(3) == 2097152 && Power(4) == 268435456;
    }
  }

  /** What is read is always in range, and shorter data remains. */
  lemma {:induction false} DecodedBounds(data: Bytes, left: nat)
    ensures Decoded(data, left).Ok? ==>
      && Decoded(data, left).value < Power(left)
      && |Decoded(data, left).rest| < |data|
  {
    if left != 0 && data != [] {
      DecodedBounds(data[1..], left - 1);
      assert Power(1) == 128 * Power(0);
    }
  }

  lemma Distribute(p: nat, byte: nat, v: nat)
    ensures p * (byte + 128 * v) == byte * p + (128 * p) * v
  {
    assert p * (byte + 128 * v) == p * byte + p * (128 * v);
    assert p * (128 * v) == (128 * p) * v;
  }

  lemma ScaledTwice(low: nat, base: nat, byte: nat, r: Read<nat>)
    ensures Scaled(low, base, Scaled(byte, 128, r)) == Scaled(low + byte * base, 128 * base, r)
  {
    if r.Ok? {
      Distribute(base, byte, r.value);
    }
  }

  /** One more byte of a VarInt that is being read. */
  lemma VarintStep(data: Bytes, value: nat, position: nat, left: nat)
    requires data != [] && 0 < left
    ensures data[0] < 128 ==>
      Scaled(value, Power(position), Decoded(data, left)) == Ok(value + data[0] * Power(position), data[1..])
    ensures data[0] >= 128 ==>
      Scaled(value, Power(position), Decoded(data, left))
        == Scaled(value + (data[0] % 128) * Power(position), Power(position + 1), Decoded(data[1..], left - 1))
  {
    if data[0] < 128 {
      assert Power(position) * data[0] == data[0] * Power(position);
    } else {
      ScaledTwice(value, Power(position), data[0] % 128, Decoded(data[1..], left - 1));
    }
  }

  /** Before the first byte nothing has been added yet. */
  lemma VarintStart(r: Read<nat>)
    ensures Scaled(0, Power(0), r) == r
  {
  }

  /** `_read_varint` on a socket. Adding stands for `|=`: the bits do not overlap. */
  method ReadVarint(socket: Socket) returns (r: Read<nat>)
    modifies socket
    ensures r == Decoded(old(socket.data), MAX_VARINT_BYTES)
    ensures r.Ok? ==> socket.data == r.rest
  {
    hide Power, Decoded, Scaled;
    var value: nat := 0;
    VarintStart(Decoded(socket.data, MAX_VARINT_BYTES));
    for position := 0 to MAX_VARINT_BYTES
      invariant Decoded(old(socket.data), MAX_VARINT_BYTES)
        == Scaled(value, Power(position), Decoded(socket.data, MAX_VARINT_BYTES - position))
    {
      ghost var data := socket.data;
      var read := socket.ReadExact(1);
      if read.None? {
        VarintEnds(data, value, position, MAX_VARINT_BYTES - position);
        return Truncated;
      }
      VarintStep(data, value, position, MAX_VARINT_BYTES - position);
      var byte := read.value[0];
      if byte < 128 {
        return Ok(value + byte * Power(position), socket.data);
      }
      value := value + (byte % 128) * Power(position);
    }
    VarintEnds(socket.data, value, MAX_VARINT_BYTES, 0);
    r := TooLong;
  }

  lemma VarintEnds(data: Bytes, value: nat, position: nat, left: nat)
    ensures data == [] && 0 < left ==> Scaled(value, Power(position), Decoded(data, left)) == Truncated
    ensures left == 0 ==> Scaled(value, Power(position), Decoded(data, left)) == TooLong
  {
  }

  /** `_PacketReader`: reads the body of a packet that has already arrived. */
  class PacketReader {
    const data: Bytes
    var offset: nat

    ghost predicate Valid()
      reads this
    {
      offset <= |data|
    }

    constructor (payload: Bytes)
      ensures Valid() && data == payload && offset == 0
    {
      data, offset := payload, 0;
    }

    /** `varint`: agrees with the socket reader on every input. */
    method Varint() returns (r: Read<nat>)
      requires Valid()
      modifies this
      ensures Valid()
      ensures r == Decoded(old(data[offset..]), MAX_VARINT_BYTES)
      ensures r.Ok? ==> data[offset..] == r.rest
    {
      hide Power, Decoded, Scaled;
      var value: nat := 0;
      VarintStart(Decoded(data[offset..], MAX_VARINT_BYTES));
      for position := 0 to MAX_VARINT_BYTES
        invariant Valid()
        invariant Decoded(old(data[offset..]), MAX_VARINT_BYTES)
          == Scaled(value, Power(position), Decoded(data[offset..], MAX_VARINT_BYTES - position))
      {
        if offset >= |data| {
          VarintEnds(data[offset..], value, position, MAX_VARINT_BYTES - position);
          return Truncated;
        }
        VarintStep(data[offset..], value, position, MAX_VARINT_BYTES - position);
        var byte := data[offset];
        assert data[offset..][1..] == data[offset + 1..];
        offset := offset + 1;
        if byte < 128 {
          return Ok(value + byte * Power(position), data[offset..]);
        }
        value := value + (byte % 128) * Power(position);
      }
      VarintEnds(data[offset..], value, MAX_VARINT_BYTES, 0);
      r := TooLong;
    }
  }

  // ---- packets ----

  function Framed(payload: Bytes): Bytes {
    Encoded(|payload|) + payload
  }

  function Unframed(data: Bytes): Read<Bytes> {
    match Decoded(data, MAX_VARINT_BYTES)
    case Ok(length, rest) =>
      if !(0 < length <= MAX_PACKET) then OutOfBounds
      else if |rest| < length then Truncated
      else Ok(rest[..length], rest[length..])
    case Truncated => Truncated
    case TooLong => TooLong
    case OutOfBounds => OutOfBounds
  }

  /** `_send_packet`: what goes out on the wire. */
  method SendPacket(payload: Bytes) returns (out: Bytes)
    ensures out == Framed(payload)
  {
    var length := EncodeVarint(|payload|);
    out := length + payload;
  }

  /** `_read_packet`. */
  method ReadPacket(socket: Socket) returns (r: Read<Bytes>)
    modifies socket
    ensures r == Unframed(old(socket.data))
    ensures r.Ok? ==> socket.data == r.rest
  {
    hide Decoded;
    var length := ReadVarint(socket);
    match length {
      case Ok(n, _) =>
        if !(0 < n <= MAX_PACKET) {
          return OutOfBounds;
        }
        var body := socket.ReadExact(n);
        r := if body.Some? then Ok(body.value, socket.data) else Truncated;
      case Truncated => r := Truncated;
      case TooLong => r := TooLong;
      case OutOfBounds => r := OutOfBounds;
    }
  }

  /** A packet is read back exactly when its length is within bounds. */
  lemma PacketRoundTrip(payload: Bytes, rest: Bytes)
    ensures Unframed(Framed(payload) + rest) == Ok(payload, rest) <==> 0 < |payload| <= 32768
    ensures !(0 < |payload| <= 32768) ==> Unframed(Framed(payload) + rest) in {OutOfBounds, TooLong}
  {
    assert Framed(payload) + rest == Encoded(|payload|) + (payload + rest);
    VarintRoundTrip(|payload|, payload + rest);
    assert (payload + rest)[..|payload|] == payload && (payload + rest)[|payload|..] == rest;
  }

  function Stream(packets: seq<Bytes>): Bytes {
    if packets == [] then [] else Framed(packets[0]) + Stream(packets[1..])
  }

  /** Reads that many packets in a row. */
  function ReadAll(data: Bytes, count: nat): Option<(seq<Bytes>, Bytes)>
    decreases count
  {
    if count == 0 then Some(([], data))
    else
      match Unframed(data)
      case Ok(packet, rest) =>
        var more := ReadAll(rest, count - 1);
        if more.Some? then Some(([packet] + more.value.0, more.value.1)) else None
      case _ => None
  }

  /** A stream of packets is read back packet by packet, unchanged. */
  lemma {:induction false} StreamRoundTrip(packets: seq<Bytes>, rest: Bytes)
    requires forall i :: 0 <= i < |packets| ==> 0 < |packets[i]| <= MAX_PACKET
    ensures ReadAll(Stream(packets) + rest, |packets|) == Some((packets, rest))
  {
    hide Unframed, Framed;
    if packets != [] {
      var more := Stream(packets[1..]) + rest;
      assert Stream(packets) + rest == Framed(packets[0]) + more;
      PacketRoundTrip(packets[0], more);
      StreamRoundTrip(packets[1..], rest);
      assert [packets[0]] + packets[1..] == packets;
    } else {
      assert Stream(packets) + rest == rest;
    }
  }

  /** Reads that many packets off a socket, one after the other. */
  method ReadPackets(socket: Socket, count: nat) returns (r: Option<seq<Bytes>>)
    modifies socket
    ensures var all := ReadAll(old(socket.data), count);
      if all.Some? then r == Some(all.value.0) && socket.data == all.value.1 else r.None?
    decreases count
  {
    hide Unframed;
    if count == 0 {
      return Some([]);
    }
    var first := ReadPacket(socket);
    if !first.Ok? {
      return None;
    }
    var more := ReadPackets(socket, count - 1);
    r := if more.Some? then Some([first.value] + more.value) else None;
  }

  /** What was sent packet by packet is read packet by packet, however the network
      cuts it up. */
  method SentIsRead(packets: seq<Bytes>, rest: Bytes) returns (r: Option<seq<Bytes>>, left: Bytes)
    requires forall i :: 0 <= i < |packets| ==> 0 < |packets[i]| <= MAX_PACKET
    ensures r == Some(packets) && left == rest
  {
    hide ReadAll, Stream, Framed;
    StreamRoundTrip(packets, rest);
    var sent := SendPackets(packets);
    var socket := new Socket(sent + rest);
    r := ReadPackets(socket, |packets|);
    left := socket.data;
  }

  method SendPackets(packets: seq<Bytes>) returns (sent: Bytes)
    ensures sent == Stream(packets)
  {
    if packets == [] {
      return [];
    }
    var first := SendPacket(packets[0]);
    var more := SendPackets(packets[1..]);
    sent := first + more;
  }
}
