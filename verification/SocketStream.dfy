/** Reading from and writing to a socket without copying: the byte array's own buffers go to readv and writev. */
module SocketStream {
  import opened ByteArray

  /** What the socket answers: a count of zero or an error, or the bytes that arrived. */
  datatype Received = Nothing(rt: int) | Bytes(bytes: seq<byte>)

  /** The array ends as if the bytes had been written by a copying write. */
  method Read(ba: ByteArray, length: nat, connected: bool, arrived: Received) returns (r: Result<int>)
    requires ba.Valid()
    requires if arrived.Nothing? then arrived.rt <= 0 else |arrived.bytes| <= length
    modifies ba, ba.nodes, ba.owner.Keys
    ensures !connected ==> r == Ok(-1) && unchanged(ba)
    ensures !r.OutOfRange?
    ensures connected ==> (r.NullNode? <==> !Fits(ba.base, old(ba.capacity - ba.position), length))
    ensures r.Ok? ==> ba.Valid()
    ensures connected && r.Ok? && arrived.Bytes? ==> r.value == |arrived.bytes| && ba.Written(arrived.bytes)
    ensures connected && r.Ok? && arrived.Nothing? ==> r.value == arrived.rt && ba.Written([])
  {
    hide ByteArray.Shape, Pasted, Overwrite, Fits;
    if !connected { return Ok(-1); }
    ba.CursorFacts();
    var wanted, iovs := ba.GetWriteBuffers(length);
    if wanted.NullNode? { return NullNode; }
    ghost var before, grown := old(ba.mem), ba.mem;
    if arrived.Nothing? || |arrived.bytes| == 0 {
      PastedNothing(before, ba.position, ba.mem);
      return Ok(if arrived.Nothing? then arrived.rt else 0);
    }
    ba.Scatter(iovs, arrived.bytes, ba.position, ba.position + length);
    PastedWritten(before, grown, ba.position, arrived.bytes);
    var moved := ba.SetPosition(ba.position + |arrived.bytes|);
    return Ok(|arrived.bytes|);
  }

  /** What is sent are the bytes the copying read would return first; the position moves behind them. */
  method Write(ba: ByteArray, length: nat, connected: bool, rt: int) returns (r: int, sent: seq<byte>)
    requires ba.Valid() && rt <= Min(length, ba.size - ba.position)
    modifies ba`position, ba`size, ba`cur
    ensures ba.Valid() && ba.size == old(ba.size)
    ensures r == if connected then rt else -1
    ensures r <= 0 ==> ba.position == old(ba.position) && sent == []
    ensures r > 0 ==> ba.position == old(ba.position) + r <= |ba.mem| && sent == ba.mem[old(ba.position)..ba.position]
  {
    hide ByteArray.Shape, ByteArray.Covers;
    if !connected { return -1, []; }
    ba.CursorFacts();
    var n, iovs := ba.GetReadBuffers(length);
    if rt <= 0 { return rt, []; }
    sent := Gather(iovs)[..rt];
    assert sent == ba.mem[ba.position..ba.position + rt];
    var moved := ba.SetPosition(ba.position + rt);
    return rt, sent;
  }
}
