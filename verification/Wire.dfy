/** Bytes and a socket that delivers them in chunks of any size. */
module Wire {
  import opened Common

  type Byte = b: int | 0 <= b < 256

  type Bytes = seq<Byte>

  /** `data` is what the peer will still send before it closes. */
  class Socket {
    var data: Bytes

    constructor (data: Bytes)
      ensures this.data == data
    {
      this.data := data;
    }

    /** `recv`: some bytes, at most `count`; none exactly at the end. */
    method Recv(count: int) returns (chunk: Bytes)
      requires 0 < count
      modifies this
      ensures chunk + data == old(data) && |chunk| <= count
      ensures chunk == [] <==> old(data) == []
    {
      var size: int := *;
      if size < 1 {
        size := 1;
      }
      if size > count {
        size := count;
      }
      if size > |data| {
        size := |data|;
      }
      chunk, data := data[..size], data[size..];
    }

    /** `_recv_exact` and `_read_exact`: exactly `count` bytes however they are
        chunked, or a failure once the peer has closed. */
    method ReadExact(count: int) returns (r: Option<Bytes>)
      modifies this
      ensures count <= 0 ==> r == Some([]) && data == old(data)
      ensures 0 < count <= |old(data)| ==> r == Some(old(data)[..count]) && data == old(data)[count..]
      ensures |old(data)| < count ==> r.None? && data == []
    {
      var got: Bytes := [];
      while |got| < count
        invariant got + data == old(data)
        invariant |got| <= count || got == []
        decreases count - |got|
      {
        var chunk := Recv(count - |got|);
        if chunk == [] {
          return None;
        }
        got := got + chunk;
      }
      r := Some(got);
    }
  }
}
