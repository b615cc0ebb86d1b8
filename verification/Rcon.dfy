/** The RCON client (app/adapters/rcon.py): packets of the Source RCON Protocol,
    and the reassembly of replies that the server splits. */
module Rcon {
  import opened Common
  import opened Wire

  const MAX_PAYLOAD := 4096
  const EXEC := 2

  predicate IsInt32(v: int) {
    -0x8000_0000 <= v < 0x8000_0000
  }

  /** A little-endian 32-bit integer in two's complement. */
  function Int32(v: int): (r: Bytes)
    requires IsInt32(v)
    ensures |r| == 4
  {
    var u := if v < 0 then v + 0x1_0000_0000 else v;
    [u % 256, u / 256 % 256, u / 65536 % 256, u / 16777216]
  }

  function FromInt32(b: Bytes): int
    requires |b| == 4
  {
    var b0: int, b1: int, b2: int, b3: int := b[0], b[1], b[2], b[3];
    var u := b0 + 256 * b1 + 65536 * b2 + 16777216 * b3;
    if u < 0x8000_0000 then u else u - 0x1_0000_0000
  }

  lemma Int32RoundTrip(v: int)
    requires IsInt32(v)
    ensures FromInt32(Int32(v)) == v
  {
    var u := if v < 0 then v + 0x1_0000_0000 else v;
    assert u == u % 256 + 256 * (u / 256);
    assert u / 256 == u / 256 % 256 + 256 * (u / 256 / 256);
    assert u / 256 / 256 == u / 65536;
    assert u / 65536 == u / 65536 % 256 + 256 * (u / 65536 / 256);
    assert u / 65536 / 256 == u / 16777216;
  }

  /** The lowest byte comes first. */
  lemma Int32Bytes(v: int)
    requires IsInt32(v)
    ensures var b := Int32(v);
      b[0] as int + 256 * b[1] as int + 65536 * b[2] as int + 16777216 * b[3] as int
        == if v < 0 then v + 4294967296 else v
  {
    Int32RoundTrip(v);
  }

  datatype Packet = Packet(id: int, kind: int, payload: Bytes)

  function Body(p: Packet): Bytes
    requires IsInt32(p.id) && IsInt32(p.kind)
  {
    Int32(p.id) + Int32(p.kind) + p.payload + [0, 0]
  }

  predicate Encodable(p: Packet) {
    IsInt32(p.id) && IsInt32(p.kind) && IsInt32(|p.payload| + 10)
  }

  /** `encode_packet`: refused when a field does not fit 32 bits. */
  function EncodePacket(p: Packet): (r: Option<Bytes>)
    ensures r.Some? <==> Encodable(p)
    ensures r.Some? ==> |r.value| == |p.payload| + 14 && r.value[..4] == Int32(|r.value| - 4)
  {
    if Encodable(p) then Some(Int32(|Body(p)|) + Body(p)) else None
  }

  /** `decode_packet` on a body: refused when the two integers are missing. The
      payload is what lies between them and the last two bytes. */
  function DecodePacket(body: Bytes): Option<Packet> {
    if |body| < 8 then None
    else
      Some(Packet(FromInt32(body[..4]), FromInt32(body[4..8]), if |body| < 10 then [] else body[8..|body| - 2]))
  }

  lemma PacketRoundTrip(p: Packet)
    requires Encodable(p)
    ensures DecodePacket(Body(p)) == Some(p)
    ensures |Body(p)| == |p.payload| + 10
  {
    Int32RoundTrip(p.id);
    Int32RoundTrip(p.kind);
    var b := Body(p);
    assert b[..4] == Int32(p.id) && b[4..8] == Int32(p.kind) && b[8..|b| - 2] == p.payload;
  }

  /** The packet on the wire, byte by byte: length, id, type, payload, two zeros. */
  lemma PacketLayout(p: Packet)
    requires Encodable(p)
    ensures var b := EncodePacket(p).value;
      && |b| == |p.payload| + 14
      && b[..4] == Int32(|p.payload| + 10) && b[4..8] == Int32(p.id) && b[8..12] == Int32(p.kind)
      && b[12..|b| - 2] == p.payload && b[|b| - 2] == 0 && b[|b| - 1] == 0
  {
    hide Int32;
    var body := Body(p);
    var b := EncodePacket(p).value;
    assert b == Int32(|body|) + body && body == Int32(p.id) + (Int32(p.kind) + (p.payload + [0, 0]));
    assert b[4..8] == body[..4] && b[8..12] == body[4..8] && b[12..] == body[8..];
  }

  /** The command "list" as request 1. */
  lemma ListCommandBytes()
    ensures EncodePacket(Packet(1, EXEC, [108, 105, 115, 116]))
      == Some([14, 0, 0, 0, 1, 0, 0, 0, 2, 0, 0, 0, 108, 105, 115, 116, 0, 0])
  {
    var p := Packet(1, EXEC, [108, 105, 115, 116]);
    assert Int32(1) == [1, 0, 0, 0] && Int32(2) == [2, 0, 0, 0] && Int32(14) == [14, 0, 0, 0];
    var body: Bytes := [1, 0, 0, 0, 2, 0, 0, 0, 108, 105, 115, 116, 0, 0];
    assert Body(p) == body && |body| == 14;
    assert Int32(14) + body == [14, 0, 0, 0, 1, 0, 0, 0, 2, 0, 0, 0, 108, 105, 115, 116, 0, 0];
  }

  /** What reading one packet from a byte stream gives, and what it leaves. */
  function TakePacket(data: Bytes): Option<(Packet, int, Bytes)> {
    if |data| < 4 then None
    else
      var length := FromInt32(data[..4]);
      if length < 8 || |data| < 4 + length then None
      else
        var packet := DecodePacket(data[4..4 + length]);
        if packet.Some? then Some((packet.value, length - 10, data[4 + length..])) else None
  }

  lemma TakeEncoded(p: Packet, rest: Bytes)
    requires Encodable(p)
    ensures TakePacket(EncodePacket(p).value + rest) == Some((p, |p.payload|, rest))
  {
    PacketRoundTrip(p);
    Int32RoundTrip(|Body(p)|);
    var data := EncodePacket(p).value + rest;
    assert data[..4] == Int32(|Body(p)|);
    assert data[4..4 + |Body(p)|] == Body(p);
    assert data[4 + |Body(p)|..] == rest;
  }

  // ---- replies in several packets ----

  /** How the server splits a reply. */
  function Fragments(reply: Bytes): (r: seq<Bytes>)
    ensures r != []
    ensures forall i :: 0 <= i < |r| ==> |r[i]| <= MAX_PAYLOAD
    decreases |reply|
  {
    if |reply| <= MAX_PAYLOAD then [reply]
    else [reply[..MAX_PAYLOAD]] + Fragments(reply[MAX_PAYLOAD..])
  }

  function Concat(parts: seq<Bytes>): Bytes {
    if parts == [] then [] else parts[0] + Concat(parts[1..])
  }

  lemma {:induction false} FragmentsConcat(reply: Bytes)
    ensures Concat(Fragments(reply)) == reply
    ensures |Fragments(reply)[0]| < MAX_PAYLOAD <==> |reply| < MAX_PAYLOAD
    ensures |reply| < MAX_PAYLOAD ==> Fragments(reply) == [reply]
    decreases |reply|
  {
    if |reply| <= MAX_PAYLOAD {
      assert Concat([]) == [];
      assert [reply][1..] == [];
    } else {
      FragmentsConcat(reply[MAX_PAYLOAD..]);
      assert Fragments(reply)[1..] == Fragments(reply[MAX_PAYLOAD..]);
    }
  }

  /** The bytes of the fragments, each in a packet with the request's id. */
  function Packets(id: int, kind: int, fragments: seq<Bytes>): Bytes
    requires IsInt32(id) && IsInt32(kind)
    requires forall i :: 0 <= i < |fragments| ==> |fragments[i]| <= MAX_PAYLOAD
  {
    if fragments == [] then []
    else EncodePacket(Packet(id, kind, fragments[0])).value + Packets(id, kind, fragments[1..])
  }

  lemma FirstPacket(id: int, kind: int, fragments: seq<Bytes>, end: Bytes, rest: Bytes)
    requires IsInt32(id) && IsInt32(kind) && fragments != []
    requires forall i :: 0 <= i < |fragments| ==> |fragments[i]| <= MAX_PAYLOAD
    ensures TakePacket(Packets(id, kind, fragments) + end + rest)
      == Some((Packet(id, kind, fragments[0]), |fragments[0]|, Packets(id, kind, fragments[1..]) + end + rest))
  {
    var more := Packets(id, kind, fragments[1..]) + end + rest;
    assert Packets(id, kind, fragments) + end + rest == EncodePacket(Packet(id, kind, fragments[0])).value + more;
    TakeEncoded(Packet(id, kind, fragments[0]), more);
  }

  lemma NoMorePackets(id: int, kind: int, fragments: seq<Bytes>, end: Bytes, rest: Bytes)
    requires IsInt32(id) && IsInt32(kind) && fragments == []
    ensures Packets(id, kind, fragments) + end + rest == end + rest && [] + rest == rest
  {
    assert Packets(id, kind, fragments) == [];
  }

  predicate FirstIsFull(data: Bytes) {
    TakePacket(data).Some? && TakePacket(data).value.1 >= MAX_PAYLOAD
  }

  /** The payloads up to the packet that answers the sentinel. */
  function Collect(parts: Bytes, data: Bytes, endId: int): Option<(Bytes, Bytes)>
    decreases |data|
  {
    var taken := TakePacket(data);
    if taken.None? then None
    else if taken.value.0.id == endId then Some((parts, taken.value.2))
    else Collect(parts + taken.value.0.payload, taken.value.2, endId)
  }

  /** The reply to a command, and what follows it in the stream. */
  function Reply(data: Bytes, endId: int): Option<(Bytes, Bytes)> {
    var taken := TakePacket(data);
    if taken.None? then None
    else if taken.value.1 < MAX_PAYLOAD then Some((taken.value.0.payload, taken.value.2))
    else Collect(taken.value.0.payload, taken.value.2, endId)
  }

  lemma {:induction false} CollectFragments(
    parts: Bytes, id: int, kind: int, fragments: seq<Bytes>, closing: Packet, rest: Bytes)
    requires IsInt32(id) && IsInt32(kind) && Encodable(closing) && id != closing.id
    requires forall i :: 0 <= i < |fragments| ==> |fragments[i]| <= MAX_PAYLOAD
    ensures Collect(parts, Packets(id, kind, fragments) + EncodePacket(closing).value + rest, closing.id)
      == Some((parts + Concat(fragments), rest))
    decreases |fragments|
  {
    hide EncodePacket, TakePacket, Packets;
    var end := EncodePacket(closing).value;
    if fragments == [] {
      NoMorePackets(id, kind, fragments, end, rest);
      TakeEncoded(closing, rest);
      assert parts + [] == parts;
    } else {
      FirstPacket(id, kind, fragments, end, rest);
      CollectFragments(parts + fragments[0], id, kind, fragments[1..], closing, rest);
      assert parts + fragments[0] + Concat(fragments[1..]) == parts + (fragments[0] + Concat(fragments[1..]));
    }
  }

  /** A reply of any length, exact multiples of a fragment included, comes back
      whole, and the stream is left at what follows it. */
  lemma ReplyReassembled(reply: Bytes, id: int, kind: int, closing: Packet, rest: Bytes)
    requires IsInt32(id) && IsInt32(kind) && Encodable(closing) && id != closing.id
    ensures var end := if |reply| < MAX_PAYLOAD then [] else EncodePacket(closing).value;
      Reply(Packets(id, kind, Fragments(reply)) + end + rest, closing.id) == Some((reply, rest))
  {
    hide EncodePacket, TakePacket, Packets, Fragments, Collect;
    var end := if |reply| < MAX_PAYLOAD then [] else EncodePacket(closing).value;
    var fragments := Fragments(reply);
    FragmentsConcat(reply);
    FirstPacket(id, kind, fragments, end, rest);
    if |reply| < MAX_PAYLOAD {
      NoMorePackets(id, kind, fragments[1..], end, rest);
    } else {
      CollectFragments(fragments[0], id, kind, fragments[1..], closing, rest);
    }
  }

  class RconConnection {
    const socket: Socket
    var nextId: int
    var sent: seq<Packet>

    constructor (socket: Socket)
      ensures this.socket == socket && nextId == 0 && sent == []
    {
      this.socket, nextId, sent := socket, 0, [];
    }

    /** `_recv_packet`: one packet and the size of its payload in bytes. */
    method RecvPacket() returns (r: Option<(Packet, int)>)
      modifies socket
      ensures var taken := TakePacket(old(socket.data));
        if taken.Some? then r == Some((taken.value.0, taken.value.1)) && socket.data == taken.value.2 else r.None?
    {
      ghost var data := socket.data;
      var prefix := socket.ReadExact(4);
      if prefix.None? {
        return None;
      }
      var length := FromInt32(prefix.value);
      var body := socket.ReadExact(length);
      if body.None? {
        return None;
      }
      assert 0 < length ==> data[4..][..length] == data[4..4 + length] && data[4..][length..] == data[4 + length..];
      var packet := DecodePacket(body.value);
      r := if packet.Some? then Some((packet.value, |body.value| - 10)) else None;
    }

    /** Encodes and sends one packet; refused when a field does not fit 32 bits. */
    method Send(p: Packet) returns (ok: bool)
      modifies this`sent
      ensures ok == Encodable(p)
      ensures sent == if ok then old(sent) + [p] else old(sent)
    {
      ok := EncodePacket(p).Some?;
      if ok {
        sent := sent + [p];
      }
    }

    /** `command`: sends the request, and a sentinel if the first packet is full. */
    method Command(cmd: Bytes) returns (r: Option<Bytes>)
      modifies this, socket
      ensures
        var request, closing := Packet(old(nextId) + 1, EXEC, cmd), Packet(old(nextId) + 2, EXEC, []);
        var data := old(socket.data);
        if !Encodable(request) then r.None? && sent == old(sent) && socket.data == data
        else if !FirstIsFull(data) then sent == old(sent) + [request] && Delivered(r, Reply(data, closing.id))
        else if !Encodable(closing) then sent == old(sent) + [request] && r.None?
        else sent == old(sent) + [request, closing] && Delivered(r, Reply(data, closing.id))
    {
      hide Encodable, TakePacket;
      nextId := nextId + 1;
      var ok := Send(Packet(nextId, EXEC, cmd));
      if !ok {
        return None;
      }
      var first := RecvPacket();
      if first.None? {
        return None;
      }
      if first.value.1 < MAX_PAYLOAD {
        return Some(first.value.0.payload);
      }
      var parts := first.value.0.payload;
      nextId := nextId + 1;
      var endId := nextId;
      ok := Send(Packet(endId, EXEC, []));
      if !ok {
        return None;
      }
      ghost var goal := Collect(parts, socket.data, endId);
      while true
        invariant Collect(parts, socket.data, endId) == goal
        modifies socket
        decreases |socket.data|
      {
        TakeShrinks(socket.data);
        var next := RecvPacket();
        if next.None? {
          return None;
        }
        if next.value.0.id == endId {
          return Some(parts);
        }
        parts := parts + next.value.0.payload;
      }
    }

    /** The caller gets the reply and the stream stands behind it, or an exception. */
    ghost predicate Delivered(r: Option<Bytes>, whole: Option<(Bytes, Bytes)>)
      reads socket
    {
      if whole.Some? then r == Some(whole.value.0) && socket.data == whole.value.1 else r.None?
    }
  }

  lemma TakeShrinks(data: Bytes)
    ensures TakePacket(data).Some? ==> |TakePacket(data).value.2| < |data|
  {
  }

  /** The client against a server that splits its reply: the whole reply comes back,
      and the stream stands at what follows. */
  method AnsweredCommand(
    connection: RconConnection, cmd: Bytes, ghost reply: Bytes, ghost kind: int, ghost closing: Packet,
    ghost rest: Bytes)
    returns (r: Option<Bytes>)
    requires Encodable(Packet(connection.nextId + 1, EXEC, cmd)) && Encodable(Packet(connection.nextId + 2, EXEC, []))
    requires IsInt32(kind) && Encodable(closing) && closing.id == connection.nextId + 2
    requires connection.socket.data ==
      Packets(connection.nextId + 1, kind, Fragments(reply))
        + (if |reply| < MAX_PAYLOAD then [] else EncodePacket(closing).value) + rest
    modifies connection, connection.socket
    ensures r == Some(reply) && connection.socket.data == rest
  {
    hide Packets, Fragments, EncodePacket, TakePacket, Reply;
    ReplyReassembled(reply, connection.nextId + 1, kind, closing, rest);
    r := connection.Command(cmd);
  }
}
