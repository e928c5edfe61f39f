/** The typed writes and reads of a byte array, and a whole message written and read back. */
module TypedArray {
  import opened ByteArray
  import opened Codec
  import opened Messages

  // ---- room for several writes ----

  /** What is free after a write of `n` bytes. */
  function FreeLeft(base: nat, free: nat, n: nat): nat
    requires base > 0
  {
    if Fits(base, free, n) then (CapacityExactly(base, free, n); FreeAfter(base, free, n) - n) else 0
  }

  /** Every one of several writes finds its capacity. */
  predicate AllFit(base: nat, free: nat, chunks: seq<seq<byte>>)
    requires base > 0
    decreases |chunks|
  {
    chunks == [] || (Fits(base, free, |chunks[0]|) && AllFit(base, FreeLeft(base, free, |chunks[0]|), chunks[1..]))
  }

  function FreeAtEnd(base: nat, free: nat, chunks: seq<seq<byte>>): nat
    requires base > 0
    decreases |chunks|
  {
    if chunks == [] then free else FreeAtEnd(base, FreeLeft(base, free, |chunks[0]|), chunks[1..])
  }

  function AllChunks(m: Machine, vs: seq<Value>): seq<seq<byte>>
    requires AllLegal(vs)
  {
    if vs == [] then [] else Chunks(m, vs[0]) + AllChunks(m, vs[1..])
  }

  lemma {:induction false} FitInTurn(base: nat, free: nat, a: seq<seq<byte>>, b: seq<seq<byte>>)
    requires base > 0
    ensures AllFit(base, free, a + b) <==> AllFit(base, free, a) && AllFit(base, FreeAtEnd(base, free, a), b)
    ensures FreeAtEnd(base, free, a + b) == FreeAtEnd(base, FreeAtEnd(base, free, a), b)
    decreases |a|
  {
    if a == [] {
      assert a + b == b;
    } else {
      FitInTurn(base, FreeLeft(base, free, |a[0]|), a[1..], b);
      assert (a + b)[1..] == a[1..] + b;
    }
  }

  function Total(chunks: seq<seq<byte>>): nat {
    if chunks == [] then 0 else |chunks[0]| + Total(chunks[1..])
  }

  /** Room for all the bytes is enough, and so is a base size of one. */
  lemma {:induction false} RoomIsEnough(base: nat, free: nat, chunks: seq<seq<byte>>)
    requires base > 0 && (Total(chunks) <= free || base == 1)
    ensures AllFit(base, free, chunks)
    decreases |chunks|
  {
    if chunks != [] {
      RoomIsEnough(base, FreeLeft(base, free, |chunks[0]|), chunks[1..]);
    }
  }

  lemma {:induction false} TotalOfBoth(a: seq<seq<byte>>, b: seq<seq<byte>>)
    ensures Total(a + b) == Total(a) + Total(b)
    decreases |a|
  {
    if a == [] {
      assert a + b == b;
    } else {
      TotalOfBoth(a[1..], b);
      assert (a + b)[1..] == a[1..] + b;
    }
  }

  lemma {:induction false} TotalIs(m: Machine, vs: seq<Value>)
    requires AllLegal(vs)
    ensures Total(AllChunks(m, vs)) == |EncodeAll(m, vs)|
    decreases |vs|
  {
    if vs != [] {
      TotalIs(m, vs[1..]);
      TotalOfBoth(Chunks(m, vs[0]), AllChunks(m, vs[1..]));
      assert Chunks(m, vs[0])[1..] == if vs[0].String? then [vs[0].s] else [];
    }
  }

  /** A message is written without fail when all of it finds room, and always when nodes have one byte. */
  lemma MessageFits(m: Machine, vs: seq<Value>, base: nat, free: nat)
    requires AllLegal(vs) && base > 0 && (|EncodeAll(m, vs)| <= free || base == 1)
    ensures AllFit(base, free, AllChunks(m, vs))
  {
    TotalIs(m, vs);
    RoomIsEnough(base, free, AllChunks(m, vs));
  }

  // ---- writing ----

  /** The array after writes of `chunks` that come to `bytes`. */
  twostate predicate Sent(ba: ByteArray, bytes: seq<byte>, chunks: seq<seq<byte>>)
    requires ba.base > 0 && old(ba.position <= ba.capacity)
    reads ba`position, ba`size, ba`mem, ba`capacity
  {
    && ba.Written(bytes)
    && ba.capacity - ba.position == FreeAtEnd(ba.base, old(ba.capacity - ba.position), chunks)
  }

  lemma OneChunk(base: nat, free: nat, c: seq<byte>)
    requires base > 0
    ensures AllFit(base, free, [c]) <==> Fits(base, free, |c|)
    ensures Fits(base, free, |c|) ==> FreeAtEnd(base, free, [c]) == FreeAfter(base, free, |c|) - |c|
  {
    var rest := [c][1..];
    assert AllFit(base, FreeLeft(base, free, |c|), rest);
  }

  /** One call of write. */
  method Put(ba: ByteArray, bytes: seq<byte>) returns (r: Result<()>)
    requires ba.Valid()
    modifies ba.Repr()
    ensures !r.OutOfRange? && ba.base > 0 && old(ba.position <= ba.capacity)
    ensures r.Ok? <==> AllFit(ba.base, old(ba.capacity - ba.position), [bytes])
    ensures r.Ok? ==> ba.Valid() && Sent(ba, bytes, [bytes])
    ensures fresh(ba.Repr() - old(ba.Repr()))
  {
    hide ByteArray.Shape, Fits, NodesFor, Pasted, AllFit, FreeAtEnd;
    ba.Bounds();
    OneChunk(ba.base, ba.capacity - ba.position, bytes);
    r := ba.Write(bytes);
  }

  method WriteFixed(ba: ByteArray, m: Machine, v: nat, w: Width) returns (r: Result<()>)
    requires ba.Valid() && v < Modulus(w)
    modifies ba.Repr()
    ensures !r.OutOfRange? && ba.base > 0 && old(ba.position <= ba.capacity)
    ensures r.Ok? <==> AllFit(ba.base, old(ba.capacity - ba.position), [EncodeFixed(m, v, Bytes(w))])
    ensures r.Ok? ==> ba.Valid() && Sent(ba, EncodeFixed(m, v, Bytes(w)), [EncodeFixed(m, v, Bytes(w))])
    ensures fresh(ba.Repr() - old(ba.Repr()))
  {
    hide ByteArray.Valid, AllFit, Sent;
    var value := v;
    if m.chosen != m.compiled { value := Swap(value, Bytes(w)); }
    r := Put(ba, Image(m.host, value, Bytes(w)));
  }

  /** The groups are collected in a buffer that is never overrun, and written at once. */
  method WriteVarint(ba: ByteArray, v: nat, w: Width) returns (r: Result<()>)
    requires ba.Valid() && (w == W32 || w == W64) && v < Modulus(w)
    modifies ba.Repr()
    ensures !r.OutOfRange? && ba.base > 0 && old(ba.position <= ba.capacity)
    ensures r.Ok? <==> AllFit(ba.base, old(ba.capacity - ba.position), [Varint(v)])
    ensures r.Ok? ==> ba.Valid() && Sent(ba, Varint(v), [Varint(v)])
    ensures fresh(ba.Repr() - old(ba.Repr()))
  {
    hide ByteArray.Shape, AllFit, FreeAtEnd, Pasted, Modulus;
    var tmp := VarintBuffer(v, w);
    r := Put(ba, tmp);
  }

  method VarintBuffer(v: nat, w: Width) returns (bytes: seq<byte>)
    requires (w == W32 || w == W64) && v < Modulus(w)
    ensures bytes == Varint(v)
  {
    hide Modulus;
    VarintLengths(v, w);
    var tmp, i, value: nat := new byte[if w == W32 then 5 else 10], 0, v;
    while value >= 128
      invariant i + |Varint(value)| == |Varint(v)| <= tmp.Length
      invariant tmp[..i] + Varint(value) == Varint(v)
      decreases value
    {
      tmp[i] := (value % 128 + 128) as byte;
      i, value := i + 1, value / 128;
    }
    tmp[i] := value as byte;
    i := i + 1;
    bytes := tmp[..i];
  }

  lemma StoredBelow(p: Prefix, len: nat)
    ensures Stored(p, len) < Modulus(PrefixWidth(p))
  {
    var h := Half(PrefixWidth(p));
  }

  method WritePrefix(ba: ByteArray, m: Machine, p: Prefix, size: nat) returns (r: Result<()>)
    requires ba.Valid()
    modifies ba.Repr()
    ensures !r.OutOfRange? && ba.base > 0 && old(ba.position <= ba.capacity)
    ensures r.Ok? <==> AllFit(ba.base, old(ba.capacity - ba.position), [EncodePrefix(m, p, size)])
    ensures r.Ok? ==> ba.Valid() && Sent(ba, EncodePrefix(m, p, size), [EncodePrefix(m, p, size)])
    ensures fresh(ba.Repr() - old(ba.Repr()))
  {
    hide ByteArray.Valid, AllFit, Modulus, EncodeFixed, Sent;
    var len := Stored(p, size);
    StoredBelow(p, size);
    if p.Vint? {
      r := WriteVarint(ba, len, W64);
    } else {
      r := WriteFixed(ba, m, len, PrefixWidth(p));
    }
  }

  /** The length, then the bytes. */
  method WriteText(ba: ByteArray, m: Machine, p: Prefix, s: seq<byte>) returns (r: Result<()>)
    requires ba.Valid() && |s| < Modulus(W64)
    modifies ba.Repr()
    ensures !r.OutOfRange? && ba.base > 0 && old(ba.position <= ba.capacity)
    ensures r.Ok? <==> AllFit(ba.base, old(ba.capacity - ba.position), Chunks(m, String(p, s)))
    ensures r.Ok? ==> ba.Valid() && Sent(ba, Encode(m, String(p, s)), Chunks(m, String(p, s)))
    ensures fresh(ba.Repr() - old(ba.Repr()))
  {
    hide ByteArray.Shape, AllFit, Pasted, FreeAtEnd, Modulus, EncodePrefix;
    ghost var e := EncodePrefix(m, p, |s|);
    r := WritePrefix(ba, m, p, |s|);
    assert Chunks(m, String(p, s)) == [e] + [s];
    FitInTurn(ba.base, old(ba.capacity - ba.position), [e], [s]);
    if !r.Ok? { return; }
    ghost var m1 := ba.mem;
    r := Put(ba, s);
    if r.Ok? { PastedMore(old(ba.mem), m1, ba.mem, old(ba.position), e, s); }
  }

  method WriteNumber(ba: ByteArray, m: Machine, t: Type, n: int) returns (r: Result<()>)
    requires ba.Valid() && Legal(Number(t, n))
    modifies ba.Repr()
    ensures !r.OutOfRange? && ba.base > 0 && old(ba.position <= ba.capacity)
    ensures r.Ok? <==> AllFit(ba.base, old(ba.capacity - ba.position), [EncodeNumber(m, t, n)])
    ensures r.Ok? ==> ba.Valid() && Sent(ba, EncodeNumber(m, t, n), [EncodeNumber(m, t, n)])
    ensures fresh(ba.Repr() - old(ba.Repr()))
  {
    hide ByteArray.Valid, AllFit, Modulus, EncodeFixed, Sent, Zigzag;
    var h := Half(t.w);
    if t.Fixed? {
      r := WriteFixed(ba, m, ToUnsigned(n, t.w), t.w);
    } else {
      if t.signed { ZigzagInverse(n, t.w); }
      r := WriteVarint(ba, if t.signed then Zigzag(n, t.w) else n, t.w);
    }
  }

  method WriteValue(ba: ByteArray, m: Machine, v: Value) returns (r: Result<()>)
    requires ba.Valid() && Legal(v)
    modifies ba.Repr()
    ensures !r.OutOfRange? && ba.base > 0 && old(ba.position <= ba.capacity)
    ensures r.Ok? <==> AllFit(ba.base, old(ba.capacity - ba.position), Chunks(m, v))
    ensures r.Ok? ==> ba.Valid() && Sent(ba, Encode(m, v), Chunks(m, v))
    ensures fresh(ba.Repr() - old(ba.Repr()))
  {
    hide ByteArray.Valid, AllFit, Modulus, EncodeNumber, EncodePrefix, Sent;
    match v
    case Number(t, n) => r := WriteNumber(ba, m, t, n);
    case String(p, s) => r := WriteText(ba, m, p, s);
  }

  /** Writes a message; it fails exactly when one of the writes misses its capacity. */
  method WriteAll(ba: ByteArray, m: Machine, vs: seq<Value>) returns (r: Result<()>)
    requires ba.Valid() && AllLegal(vs)
    modifies ba.Repr()
    ensures !r.OutOfRange? && ba.base > 0 && old(ba.position <= ba.capacity)
    ensures r.Ok? <==> AllFit(ba.base, old(ba.capacity - ba.position), AllChunks(m, vs))
    ensures r.Ok? ==> ba.Valid() && Sent(ba, EncodeAll(m, vs), AllChunks(m, vs))
    ensures fresh(ba.Repr() - old(ba.Repr()))
    decreases |vs|
  {
    hide ByteArray.Shape, AllFit, FreeAtEnd, Modulus, Encode, Chunks, Pasted;
    ba.Bounds();
    if vs == [] {
      NothingToWrite(ba.base, ba.capacity - ba.position);
      PastedNothing(ba.mem, ba.position, ba.mem);
      return Ok(());
    }
    FitInTurn(ba.base, ba.capacity - ba.position, Chunks(m, vs[0]), AllChunks(m, vs[1..]));
    r := WriteValue(ba, m, vs[0]);
    if !r.Ok? { return; }
    ghost var m1 := ba.mem;
    r := WriteAll(ba, m, vs[1..]);
    if r.Ok? { PastedMore(old(ba.mem), m1, ba.mem, old(ba.position), Encode(m, vs[0]), EncodeAll(m, vs[1..])); }
  }

  lemma NothingToWrite(base: nat, free: nat)
    requires base > 0
    ensures AllFit(base, free, []) && FreeAtEnd(base, free, []) == free
  {
  }

  // ---- reading ----

  /** How a decoder's outcome reaches the caller. */
  function Told<T>(o: Outcome<T>): Result<T> {
    match o case Done(v, _) => Ok(v) case Short(_) => OutOfRange case Null(_) => NullNode
  }

  /** The read took `used` bytes and changed nothing else. */
  twostate predicate Took(ba: ByteArray, used: nat)
    requires old(ba.Valid())
    reads ba, ba.nodes, ba.owner.Keys
  {
    && ba.Valid() && ba.position == old(ba.position) + used
    && ba.size == old(ba.size) && ba.capacity == old(ba.capacity) && ba.mem == old(ba.mem)
    && used <= |old(ba.Readable())| && ba.Readable() == old(ba.Readable())[used..]
  }

  lemma DropTwice(s: seq<byte>, a: nat, b: nat)
    requires a <= |s| && b <= |s| - a
    ensures s[a..][b..] == s[a + b..]
  {
  }

  lemma SliceOfSlice(m: seq<byte>, p: nat, q: nat, end: nat)
    requires p <= q <= end <= |m|
    ensures m[p..end][..q - p] == m[p..q] && m[p..end][q - p..] == m[q..end]
  {
  }

  method ReadNat(ba: ByteArray, m: Machine, w: Width) returns (r: Result<nat>)
    requires ba.Valid()
    modifies ba`position, ba`cur
    ensures r == Told(DecodeNat(m, w, old(ba.Readable()))) && Took(ba, DecodeNat(m, w, old(ba.Readable())).used)
  {
    hide ByteArray.Shape, DecodeFixed;
    ba.Bounds();
    ghost var p := ba.position;
    var got := ba.Read(Bytes(w));
    if got.OutOfRange? { return OutOfRange; }
    SliceOfSlice(ba.mem, p, ba.position, ba.size);
    var v := LoadFixed(m, got.value);
    return Ok(v);
  }

  method LoadFixed(m: Machine, s: seq<byte>) returns (v: nat)
    ensures v == DecodeFixed(m, s)
  {
    v := Load(m.host, s);
    if m.chosen != m.compiled { v := Swap(v, |s|); }
  }

  method ReadByte(ba: ByteArray) returns (r: Result<byte>)
    requires ba.Valid()
    modifies ba`position, ba`cur
    ensures r == (if old(ba.Readable()) == [] then OutOfRange else Ok(old(ba.Readable())[0]))
    ensures Took(ba, if r.Ok? then 1 else 0)
  {
    hide ByteArray.Shape;
    ba.Bounds();
    ghost var p := ba.position;
    var got := ba.Read(1);
    if got.OutOfRange? { return OutOfRange; }
    SliceOfSlice(ba.mem, p, ba.position, ba.size);
    return Ok(got.value[0]);
  }

  /**
   The bounded loop: seven bits more in every round, until a byte without the top bit or until the shift leaves the
   word. The shifted groups do not overlap, so setting bits is adding; what leaves the word at the top is lost.
   */
  method ReadVarint(ba: ByteArray, w: Width) returns (r: Result<nat>)
    requires ba.Valid() && (w == W32 || w == W64)
    modifies ba`position, ba`cur
    ensures r == Told(DecodeVarint(old(ba.Readable()), w)) && Took(ba, DecodeVarint(old(ba.Readable()), w).used)
  {
    hide ByteArray.Valid, ByteArray.Readable, Groups, DecodeVarint, Modulus, Shifted, Wrap, After;
    var h := Half(w);
    WrapsNot(0, w);
    ghost var all := ba.Readable();
    ghost var low: nat, k: nat := 0, 0;
    var result, i: nat := 0, 0;
    StartGroups(all, Limit(w));
    while i < 8 * Bytes(w)
      invariant i == 7 * k && k <= Limit(w) && result == Wrap(low, w) && Took(ba, k)
      invariant ba.Readable() == all[k..] && Groups(all, Limit(w)) == After(Groups(all[k..], Limit(w) - k), low, k)
      decreases Limit(w) - k
    {
      ghost var s := ba.Readable();
      var b := ReadByte(ba);
      if k < |all| { DropTwice(all, k, 1); }
      if b.OutOfRange? {
        NoMoreGroups(low, k, Limit(w) - k);
        VarintShort(all, w, k);
        return OutOfRange;
      }
      OneGroup(s, low, k, Limit(w) - k);
      var bits: nat := if b.value < 128 then b.value as nat else b.value as nat - 128;
      TruncateEachStep(low, Shifted(k, bits), w);
      result := Wrap(result + Shifted(i / 7, bits), w);
      if b.value < 128 {
        VarintDone(all, w, low + Shifted(k, bits), k + 1);
        return Ok(result);
      }
      low, i, k := low + Shifted(k, bits), i + 7, k + 1;
    }
    LastGroup(ba.Readable(), low, k);
    VarintDone(all, w, low, k);
    return Ok(result);
  }

  lemma VarintDone(s: seq<byte>, w: Width, v: nat, used: nat)
    requires Groups(s, Limit(w)) == Done(v, used)
    ensures DecodeVarint(s, w) == Done(Wrap(v, w), used)
  {
  }

  lemma VarintShort(s: seq<byte>, w: Width, used: nat)
    requires Groups(s, Limit(w)) == Short(used)
    ensures DecodeVarint(s, w) == Short(used)
  {
  }

  lemma StartGroups(s: seq<byte>, limit: nat)
    ensures Groups(s, limit) == After(Groups(s, limit), 0, 0)
  {
  }

  lemma NoMoreGroups(low: nat, k: nat, limit: nat)
    requires limit > 0
    ensures After(Groups([], limit), low, k) == Short(k)
  {
  }

  lemma LastGroup(s: seq<byte>, low: nat, k: nat)
    ensures After(Groups(s, 0), low, k) == Done(low, k)
  {
  }

  method ReadPrefix(ba: ByteArray, m: Machine, p: Prefix) returns (r: Result<nat>)
    requires ba.Valid()
    modifies ba`position, ba`cur
    ensures r == Told(DecodePrefix(m, p, old(ba.Readable())))
    ensures Took(ba, DecodePrefix(m, p, old(ba.Readable())).used)
  {
    hide ByteArray.Valid, ByteArray.Readable, DecodeVarint, DecodeNat;
    if p.Vint? {
      r := ReadVarint(ba, W64);
    } else {
      r := ReadNat(ba, m, PrefixWidth(p));
    }
  }

  lemma TextIs(m: Machine, p: Prefix, input: seq<byte>, room: nat)
    ensures match DecodePrefix(m, p, input)
            case Done(len, used) => used <= |input| && Decode(m, Text(p), input, room) == DecodeBody(p, input, used, len, room)
            case Short(used) => Decode(m, Text(p), input, room) == Short(used)
            case Null(used) => Decode(m, Text(p), input, room) == Null(used)
  {
    GroupsUse(input, Limit(W64));
  }

  /** The bytes behind the length, `used` bytes into the input. */
  method ReadBody(ba: ByteArray, p: Prefix, n: nat, ghost input: seq<byte>, ghost used: nat) returns (r: Result<Value>)
    requires ba.Valid() && used <= |input| && ba.Readable() == input[used..]
    modifies ba`position, ba`cur
    ensures var o := DecodeBody(p, input, used, n, old(ba.Room()));
      r == Told(o) && used <= o.used && Took(ba, o.used - used)
  {
    hide ByteArray.Shape;
    ba.Bounds();
    ghost var start := ba.position;
    var got := ba.Read(n);
    match got
    case OutOfRange => return OutOfRange;
    case NullNode => return NullNode;
    case Ok(bytes) =>
      SliceOfSlice(ba.mem, start, ba.position, ba.size);
      assert input[used..][..n] == input[used..used + n];
      return Ok(String(p, bytes));
  }

  /** The length, then that many bytes. */
  method ReadText(ba: ByteArray, m: Machine, p: Prefix) returns (r: Result<Value>)
    requires ba.Valid()
    modifies ba`position, ba`cur
    ensures var o := Decode(m, Text(p), old(ba.Readable()), old(ba.Room())); r == Told(o) && Took(ba, o.used)
  {
    hide ByteArray.Valid, ByteArray.Readable, DecodePrefix, Decode, DecodeBody;
    ghost var input := ba.Readable();
    TextIs(m, p, input, ba.Room());
    var len := ReadPrefix(ba, m, p);
    match len
    case OutOfRange => return OutOfRange;
    case NullNode => return NullNode;
    case Ok(n) =>
      ghost var used := DecodePrefix(m, p, input).used;
      r := ReadBody(ba, p, n, input, used);
      DropTwice(input, used, DecodeBody(p, input, used, n, old(ba.Room())).used - used);
  }

  method ReadValue(ba: ByteArray, m: Machine, t: Type) returns (r: Result<Value>)
    requires ba.Valid() && TypeOk(t)
    modifies ba`position, ba`cur
    ensures var o := Decode(m, t, old(ba.Readable()), old(ba.Room())); r == Told(o) && Took(ba, o.used)
  {
    hide ByteArray.Valid, ByteArray.Readable, DecodeVarint, DecodeNat, DecodePrefix, Modulus, Unzigzag;
    match t
    case Fixed(w, signed) =>
      var u := ReadNat(ba, m, w);
      r := match u case Ok(n) => Ok(Number(t, if signed then ToSigned(n, w) else n)) case OutOfRange => OutOfRange
           case NullNode => NullNode;
    case Compact(w, signed) =>
      var u := ReadVarint(ba, w);
      VarintBelow(old(ba.Readable()), w);
      r := match u case Ok(n) => Ok(Number(t, if signed then Unzigzag(n, w) else n)) case OutOfRange => OutOfRange
           case NullNode => NullNode;
    case Text(p) => r := ReadText(ba, m, p);
  }

  lemma VarintBelow(s: seq<byte>, w: Width)
    ensures DecodeVarint(s, w).Done? ==> DecodeVarint(s, w).value < Modulus(w)
  {
    var h := Half(w);
  }

  lemma AllIs(m: Machine, ts: seq<Type>, input: seq<byte>, room: nat)
    requires ts != [] && forall t :: t in ts ==> TypeOk(t)
    ensures var o, all := Decode(m, ts[0], input, room), DecodeAll(m, ts, input, room);
      && all.used <= |input|
      && (o.Short? ==> all == Short(o.used)) && (o.Null? ==> all == Null(o.used))
      && (o.Done? ==>
          var others := DecodeAll(m, ts[1..], input[o.used..], room);
          && (others.Short? ==> all == Short(o.used + others.used)) && (others.Null? ==> all == Null(o.used + others.used))
          && (others.Done? ==> all == Done([o.value] + others.value, o.used + others.used)))
  {
    hide Decode;
  }

  lemma NoTypes(m: Machine, input: seq<byte>, room: nat)
    ensures DecodeAll(m, [], input, room) == Done([], 0)
  {
  }

  /** Reads a message of these types. */
  method ReadAll(ba: ByteArray, m: Machine, ts: seq<Type>) returns (r: Result<seq<Value>>)
    requires ba.Valid() && forall t :: t in ts ==> TypeOk(t)
    modifies ba`position, ba`cur
    ensures var o := DecodeAll(m, ts, old(ba.Readable()), old(ba.Room())); r == Told(o) && Took(ba, o.used)
    decreases |ts|
  {
    hide ByteArray.Valid, ByteArray.Readable, Decode, DecodeAll;
    ghost var input, room, p := ba.Readable(), ba.Room(), ba.position;
    ba.Bounds();
    if ts == [] {
      NoTypes(m, input, room);
      return Ok([]);
    }
    AllIs(m, ts, input, room);
    ghost var d := Decode(m, ts[0], input, room);
    var first := ReadValue(ba, m, ts[0]);
    if first.OutOfRange? { return OutOfRange; }
    if first.NullNode? { return NullNode; }
    ghost var others := DecodeAll(m, ts[1..], input[d.used..], room);
    var tail := ReadAll(ba, m, ts[1..]);
    DropTwice(input, d.used, others.used);
    if !tail.Ok? { return tail; }
    return Ok([first.value] + tail.value);
  }

  // ---- a whole message ----

  /** Back comes what was written if the prefixes hold the lengths and no empty string ends the capacity. */
  predicate ComesBack(vs: seq<Value>, full: bool) {
    (forall v :: v in vs ==> Faithful(v)) && !(EndsEmpty(vs) && full)
  }

  lemma ReadBack(m: Machine, vs: seq<Value>, mem: seq<byte>, p: nat, end: nat, size: nat)
    requires AllLegal(vs) && p <= end <= size <= |mem| && mem[p..end] == EncodeAll(m, vs)
    ensures var o := DecodeAll(m, Types(vs), mem[p..size], |mem| - size);
      && (Told(o) == Ok(vs) <==> ComesBack(vs, end == |mem|))
      && (Told(o) == Ok(vs) ==> o.used == end - p)
  {
    hide DecodeAll, EncodeAll, EndsEmpty, Faithful;
    var rest := mem[end..size];
    SliceConcat(mem, p, end, size);
    MessageRoundTrip(m, vs, rest, |mem| - size);
  }

  /** Sets the position back and reads what was written from there on. */
  method Reread(ba: ByteArray, m: Machine, vs: seq<Value>, p: nat) returns (back: Result<seq<Value>>)
    requires ba.Valid() && AllLegal(vs) && p <= ba.position <= |ba.mem| && ba.mem[p..ba.position] == EncodeAll(m, vs)
    modifies ba`position, ba`size, ba`cur
    ensures ba.Valid() && (back == Ok(vs) <==> ComesBack(vs, old(ba.position) == ba.capacity))
    ensures back == Ok(vs) ==> ba.position == old(ba.position)
  {
    hide ByteArray.Valid, ByteArray.Readable, ByteArray.Room, DecodeAll, EncodeAll, ComesBack, AllLegal, Types;
    ba.Bounds();
    ReadBack(m, vs, ba.mem, p, ba.position, ba.size);
    var moved := ba.SetPosition(p);
    ba.Bounds();
    back := ReadAll(ba, m, Types(vs));
  }

  /** A message is written, the position set back and the same types read. */
  method RoundTrip(ba: ByteArray, m: Machine, vs: seq<Value>) returns (written: Result<()>, back: Result<seq<Value>>)
    requires ba.Valid() && AllLegal(vs)
    modifies ba.Repr()
    ensures ba.base > 0 && old(ba.position <= ba.capacity)
    ensures written.Ok? <==> AllFit(ba.base, old(ba.capacity - ba.position), AllChunks(m, vs))
    ensures written.Ok? ==> ba.Valid()
    ensures var end := old(ba.position) + |EncodeAll(m, vs)|;
      written.Ok? ==> ((back == Ok(vs) <==> ComesBack(vs, end == ba.capacity)) && (back == Ok(vs) ==> ba.position == end))
  {
    hide ByteArray.Valid, AllFit, DecodeAll, EncodeAll, ComesBack, AllChunks, FreeAtEnd;
    var p := ba.position;
    written := WriteAll(ba, m, vs);
    back := OutOfRange;
    if written.Ok? { back := Reread(ba, m, vs, p); }
  }
}
