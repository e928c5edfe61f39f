/** Messages: lists of typed values, written and read back one after the other. */
module Messages {
  import opened ByteArray
  import opened Codec

  /** The length in front of a string: 2, 4 or 8 fixed bytes, or a varint. */
  datatype Prefix = F16 | F32 | F64 | Vint

  datatype Type = Fixed(w: Width, signed: bool) | Compact(w: Width, signed: bool) | Text(prefix: Prefix)

  datatype Value = Number(t: Type, n: int) | String(prefix: Prefix, s: seq<byte>)

  predicate TypeOk(t: Type) {
    t.Compact? ==> t.w == W32 || t.w == W64
  }

  /** What the parameter types admit. */
  predicate Legal(v: Value) {
    match v
    case Number(t, n) => !t.Text? && TypeOk(t) && InRange(n, t.w, t.signed)
    case String(_, s) => |s| < Modulus(W64)
  }

  predicate AllLegal(vs: seq<Value>) {
    forall v :: v in vs ==> Legal(v)
  }

  function TypeOf(v: Value): (t: Type)
    ensures Legal(v) ==> TypeOk(t)
  {
    match v case Number(t, _) => t case String(p, _) => Text(p)
  }

  /** The width of a fixed length prefix. */
  function PrefixWidth(p: Prefix): Width {
    match p case F16 => W16 case F32 => W32 case F64 => W64 case Vint => W64
  }

  /** The length that the prefix can hold: longer ones are cut by the conversion. */
  function Stored(p: Prefix, len: nat): nat {
    len % Modulus(PrefixWidth(p))
  }

  /** A string whose length the prefix holds; a number always passes. */
  predicate Faithful(v: Value) {
    v.String? ==> |v.s| < Modulus(PrefixWidth(v.prefix))
  }

  function EncodePrefix(m: Machine, p: Prefix, len: nat): seq<byte> {
    if p.Vint? then Varint(Stored(p, len)) else EncodeFixed(m, Stored(p, len), Bytes(PrefixWidth(p)))
  }

  function EncodeNumber(m: Machine, t: Type, n: int): seq<byte>
    requires !t.Text? && TypeOk(t) && InRange(n, t.w, t.signed)
  {
    if t.Fixed? then EncodeFixed(m, ToUnsigned(n, t.w), Bytes(t.w))
    else Varint(if t.signed then Zigzag(n, t.w) else n)
  }

  /** The calls of write that a value takes. */
  function Chunks(m: Machine, v: Value): seq<seq<byte>>
    requires Legal(v)
  {
    match v
    case Number(t, n) => [EncodeNumber(m, t, n)]
    case String(p, s) => [EncodePrefix(m, p, |s|), s]
  }

  function Encode(m: Machine, v: Value): seq<byte>
    requires Legal(v)
  {
    match v
    case Number(t, n) => EncodeNumber(m, t, n)
    case String(p, s) => EncodePrefix(m, p, |s|) + s
  }

  function EncodeAll(m: Machine, vs: seq<Value>): seq<byte>
    requires AllLegal(vs)
  {
    if vs == [] then [] else Encode(m, vs[0]) + EncodeAll(m, vs[1..])
  }

  // ---- decoding: `input` is what is readable, `room` what is left of the capacity behind it ----

  function DecodeNat(m: Machine, w: Width, input: seq<byte>): Outcome<nat> {
    if |input| < Bytes(w) then Short(0) else Done(DecodeFixed(m, input[..Bytes(w)]), Bytes(w))
  }

  function DecodePrefix(m: Machine, p: Prefix, input: seq<byte>): Outcome<nat> {
    if p.Vint? then DecodeVarint(input, W64) else DecodeNat(m, PrefixWidth(p), input)
  }

  /** The string itself: reading nothing at the end of the capacity goes through a null cursor. */
  function DecodeBody(p: Prefix, input: seq<byte>, used: nat, len: nat, room: nat): Outcome<Value>
    requires used <= |input|
  {
    if len > |input| - used then Short(used) else
    if len == 0 && used == |input| && room == 0 then Null(used) else
    Done(String(p, input[used..used + len]), used + len)
  }

  lemma {:induction false} GroupsUse(s: seq<byte>, limit: nat)
    ensures Groups(s, limit).used <= |s|
    decreases limit
  {
    if limit > 0 && s != [] && s[0] >= 128 { GroupsUse(s[1..], limit - 1); }
  }

  function Decode(m: Machine, t: Type, input: seq<byte>, room: nat): (r: Outcome<Value>)
    requires TypeOk(t)
    ensures r.used <= |input|
  {
    match t
    case Fixed(w, signed) =>
      (match DecodeNat(m, w, input)
       case Done(u, used) => Done(Number(t, if signed then ToSigned(u, w) else u), used)
       case Short(used) => Short(used)
       case Null(used) => Null(used))
    case Compact(w, signed) =>
      GroupsUse(input, Limit(w));
      (match DecodeVarint(input, w)
       case Done(u, used) => Done(Number(t, if signed then Unzigzag(u, w) else u), used)
       case Short(used) => Short(used)
       case Null(used) => Null(used))
    case Text(p) =>
      GroupsUse(input, Limit(W64));
      match DecodePrefix(m, p, input)
      case Done(len, used) => DecodeBody(p, input, used, len, room)
      case Short(used) => Short(used)
      case Null(used) => Null(used)
  }

  function DecodeAll(m: Machine, ts: seq<Type>, input: seq<byte>, room: nat): (r: Outcome<seq<Value>>)
    requires forall t :: t in ts ==> TypeOk(t)
    ensures r.used <= |input|
  {
    if ts == [] then Done([], 0) else
    match Decode(m, ts[0], input, room)
    case Short(used) => Short(used)
    case Null(used) => Null(used)
    case Done(v, used) =>
      match DecodeAll(m, ts[1..], input[used..], room)
      case Short(more) => Short(used + more)
      case Null(more) => Null(used + more)
      case Done(vs, more) => Done([v] + vs, used + more)
  }

  function Types(vs: seq<Value>): (ts: seq<Type>)
    requires AllLegal(vs)
    ensures |ts| == |vs| && forall t :: t in ts ==> TypeOk(t)
  {
    seq(|vs|, i requires 0 <= i < |vs| => TypeOf(vs[i]))
  }

  /** The message ends in a string without bytes. */
  predicate EndsEmpty(vs: seq<Value>) {
    vs != [] && vs[|vs| - 1].String? && vs[|vs| - 1].s == []
  }

  // ---- the round trip ----

  lemma PrefixBack(m: Machine, p: Prefix, len: nat, rest: seq<byte>)
    ensures DecodePrefix(m, p, EncodePrefix(m, p, len) + rest) == Done(Stored(p, len), |EncodePrefix(m, p, len)|)
    ensures |EncodePrefix(m, p, len)| > 0
  {
    hide Modulus, EncodeFixed, DecodeFixed;
    var w, v, e := PrefixWidth(p), Stored(p, len), EncodePrefix(m, p, len);
    var h := Half(w);
    if p.Vint? {
      VarintRoundTrip(v, rest, W64);
    } else {
      PowerIsModulus(w);
      FixedRoundTrip(m, v, Bytes(w));
      assert (e + rest)[..Bytes(w)] == e;
    }
  }

  lemma NumberBack(m: Machine, t: Type, n: int, rest: seq<byte>, room: nat)
    requires Legal(Number(t, n))
    ensures Decode(m, t, EncodeNumber(m, t, n) + rest, room) == Done(Number(t, n), |EncodeNumber(m, t, n)|)
    ensures |EncodeNumber(m, t, n)| > 0
  {
    hide Modulus, EncodeFixed, DecodeFixed, Zigzag, Unzigzag;
    var w, e := t.w, EncodeNumber(m, t, n);
    var h := Half(w);
    if t.Fixed? {
      PowerIsModulus(w);
      FixedRoundTrip(m, ToUnsigned(n, w), Bytes(w));
      assert (e + rest)[..Bytes(w)] == e;
    } else {
      if t.signed { ZigzagInverse(n, w); }
      VarintRoundTrip(if t.signed then Zigzag(n, w) else n, rest, w);
    }
  }

  /** The numbers that a type admits, of 8, 16, 32 or 64 bits, compact ones of 32 or 64 bits only; and the strings. */
  lemma LegalExactly(t: Type, n: int, p: Prefix, s: seq<byte>)
    ensures Legal(String(p, s)) <==> |s| < 0x1_0000_0000_0000_0000
    ensures Legal(Number(t, n)) <==>
      !t.Text? && (t.Compact? ==> t.w != W8 && t.w != W16) &&
      match t.w
      case W8 => if t.signed then -0x80 <= n < 0x80 else 0 <= n < 0x100
      case W16 => if t.signed then -0x8000 <= n < 0x8000 else 0 <= n < 0x1_0000
      case W32 => if t.signed then -0x8000_0000 <= n < 0x8000_0000 else 0 <= n < 0x1_0000_0000
      case W64 => if t.signed then -0x8000_0000_0000_0000 <= n < 0x8000_0000_0000_0000 else 0 <= n < 0x1_0000_0000_0000_0000
  {
  }

  /** The bytes of a number: its width in the wire's order, or a varint of the value, zigzagged if it is signed. */
  lemma NumberFormat(m: Machine, t: Type, n: int)
    requires Legal(Number(t, n))
    ensures t.Fixed? ==>
      var u := if n < 0 then n + Power(|Encode(m, Number(t, n))|) else n;
      && |Encode(m, Number(t, n))| == (match t.w case W8 => 1 case W16 => 2 case W32 => 4 case W64 => 8)
      && 0 <= u && Encode(m, Number(t, n)) == EncodeFixed(m, u, |Encode(m, Number(t, n))|)
    ensures t.Compact? ==> Encode(m, Number(t, n)) == Varint(if !t.signed then n else if n < 0 then 2 * -n - 1 else 2 * n)
  {
    hide Modulus, EncodeFixed, Zigzag;
    var h := Half(t.w);
    PowerIsModulus(t.w);
    if t.Compact? && t.signed { ZigzagInverse(n, t.w); }
  }

  /**
   The bytes of a string: its length as an unsigned number of 16, 32 or 64 bits, cut to that width, or as a 64-bit
   varint, and then its own bytes.
   */
  lemma TextFormat(m: Machine, s: seq<byte>)
    requires |s| < 0x1_0000_0000_0000_0000
    ensures Encode(m, String(F16, s)) == EncodeFixed(m, |s| % 0x1_0000, 2) + s
    ensures Encode(m, String(F32, s)) == EncodeFixed(m, |s| % 0x1_0000_0000, 4) + s
    ensures Encode(m, String(F64, s)) == EncodeFixed(m, |s|, 8) + s
    ensures Encode(m, String(Vint, s)) == Varint(|s|) + s
  {
    hide EncodePrefix, EncodeFixed, Varint;
    FixedPrefixes(m, |s|);
    VarintPrefix(m, |s|);
  }

  lemma FixedPrefixes(m: Machine, len: nat)
    ensures EncodePrefix(m, F16, len) == EncodeFixed(m, len % 0x1_0000, 2)
    ensures EncodePrefix(m, F32, len) == EncodeFixed(m, len % 0x1_0000_0000, 4)
    ensures len < 0x1_0000_0000_0000_0000 ==> EncodePrefix(m, F64, len) == EncodeFixed(m, len, 8)
  {
    hide EncodeFixed;
  }

  lemma VarintPrefix(m: Machine, len: nat)
    requires len < 0x1_0000_0000_0000_0000
    ensures EncodePrefix(m, Vint, len) == Varint(len)
  {
    hide Varint;
  }

  /** And which strings come back. */
  lemma FaithfulExactly(s: seq<byte>)
    ensures Faithful(String(F16, s)) <==> |s| < 0x1_0000
    ensures Faithful(String(F32, s)) <==> |s| < 0x1_0000_0000
    ensures Faithful(String(F64, s)) <==> |s| < 0x1_0000_0000_0000_0000
    ensures Faithful(String(Vint, s)) <==> |s| < 0x1_0000_0000_0000_0000
  {
  }

  /** One value comes back; an empty string at the very end of the capacity does not, nor does one that was cut. */
  lemma ValueBack(m: Machine, v: Value, rest: seq<byte>, room: nat)
    requires Legal(v)
    ensures |Encode(m, v)| > 0
    ensures var r := Decode(m, TypeOf(v), Encode(m, v) + rest, room);
      if EndsEmpty([v]) && rest == [] && room == 0 then r == Null(|Encode(m, v)|)
      else r.Done? && (r.value == v <==> Faithful(v)) && (Faithful(v) ==> r.used == |Encode(m, v)|)
  {
    hide EncodePrefix, EncodeNumber, DecodePrefix, Modulus;
    match v
    case Number(t, n) => NumberBack(m, t, n, rest, room);
    case String(p, s) =>
      PrefixBack(m, p, |s|, s + rest);
      var e := EncodePrefix(m, p, |s|);
      assert Encode(m, v) + rest == e + (s + rest);
      var k := Stored(p, |s|);
      StoredLength(p, |s|);
      assert (e + (s + rest))[|e|..|e| + k] == s[..k];
  }

  lemma StoredLength(p: Prefix, len: nat)
    ensures Stored(p, len) <= len && (Stored(p, len) == len <==> len < Modulus(PrefixWidth(p)))
  {
  }

  /**
   A message comes back exactly when every string's length fits its prefix and it does not end in an empty string
   at the end of the capacity; then decoding stops at its last byte.
   */
  lemma {:induction false} MessageRoundTrip(m: Machine, vs: seq<Value>, rest: seq<byte>, room: nat)
    requires AllLegal(vs)
    ensures var r := DecodeAll(m, Types(vs), EncodeAll(m, vs) + rest, room);
      && ((r.Done? && r.value == vs) <==>
          ((forall v :: v in vs ==> Faithful(v)) && !(EndsEmpty(vs) && rest == [] && room == 0)))
      && ((forall v :: v in vs ==> Faithful(v)) ==> !r.Short? && r.used == |EncodeAll(m, vs)|)
    decreases |vs|
  {
    hide Encode, Decode, Faithful, EndsEmpty;
    if vs == [] {
      assert EncodeAll(m, vs) + rest == rest;
      NotEmptyEnd(vs);
    } else {
      var v, tail := vs[0], vs[1..];
      var after := EncodeAll(m, tail) + rest;
      var all := EncodeAll(m, vs) + rest;
      assert all == Encode(m, v) + after;
      assert Types(vs)[0] == TypeOf(v) && Types(vs)[1..] == Types(tail);
      assert vs == [v] + tail;
      ValueBack(m, v, after, room);
      if tail == [] {
        assert vs == [v] && after == rest;
      } else {
        EndOfTail(vs);
        ValueBack(m, tail[0], EncodeAll(m, tail[1..]) + rest, room);
        assert |after| > 0;
      }
      assert all[|Encode(m, v)|..] == after;
      MessageRoundTrip(m, tail, rest, room);
    }
  }

  lemma NotEmptyEnd(vs: seq<Value>)
    requires vs == []
    ensures !EndsEmpty(vs)
  {
  }

  lemma EndOfTail(vs: seq<Value>)
    requires |vs| > 1
    ensures EndsEmpty(vs) == EndsEmpty(vs[1..])
  {
  }

  // ---- reading any bytes ----

  /**
   A fixed number is read exactly when its bytes are there, and is the number whose encoding they are.
   */
  lemma NumberReadsExactly(m: Machine, t: Type, input: seq<byte>, room: nat)
    requires t.Fixed?
    ensures var r, n := Decode(m, t, input, room), (match t.w case W8 => 1 case W16 => 2 case W32 => 4 case W64 => 8);
      if |input| < n then r == Short(0)
      else r.Done? && r.used == n && Legal(r.value) && TypeOf(r.value) == t && Encode(m, r.value) == input[..n]
  {
    hide Modulus, EncodeFixed, DecodeFixed;
    var h := Half(t.w);
    PowerIsModulus(t.w);
    if |input| >= Bytes(t.w) { FixedReadBack(m, input[..Bytes(t.w)]); }
  }

  /** A compact number is read exactly when its varint ends, and is the number with the shortest varint of that value. */
  lemma CompactReadsExactly(m: Machine, t: Type, input: seq<byte>, room: nat)
    requires t.Compact? && TypeOk(t)
    ensures var r, g := Decode(m, t, input, room), DecodeVarint(input, t.w);
      && !g.Null? && r.used == g.used && (r.Short? <==> g.Short?) && (r.Done? <==> g.Done?)
      && (r.Done? ==> Legal(r.value) && TypeOf(r.value) == t && Encode(m, r.value) == Varint(g.value))
  {
    hide Modulus, Zigzag, Unzigzag, Varint, Groups;
    VarintReadsExactly(input, t.w);
    var h := Half(t.w);
    var g := DecodeVarint(input, t.w);
    if g.Done? && t.signed { UnzigzagInverse(g.value, t.w); }
  }

  /**
   A string with a fixed prefix: two, four or eight bytes of length, then that many bytes. It fails where either end
   early, reads through null when it is empty at the end of the capacity, and else is the string of these very bytes.
   */
  lemma TextReadsExactly(m: Machine, p: Prefix, input: seq<byte>, room: nat)
    requires !p.Vint?
    ensures var r, n := Decode(m, Text(p), input, room), (match p case F16 => 2 case F32 => 4 case _ => 8);
      if |input| < n then r == Short(0) else
      var len := DecodeFixed(m, input[..n]);
      if len > |input| - n then r == Short(n) else
      if len == 0 && |input| == n && room == 0 then r == Null(n) else
      r == Done(String(p, input[n..n + len]), n + len)
  {
    hide DecodeFixed;
  }

  /** With a varint in front the same, the length being the value that was read. */
  lemma CompactTextReadsExactly(m: Machine, input: seq<byte>, room: nat)
    ensures var r, g := Decode(m, Text(Vint), input, room), DecodeVarint(input, W64);
      && g.used <= |input| && !g.Null?
      && if g.Short? then r == Short(g.used)
         else if g.value > |input| - g.used then r == Short(g.used)
         else if g.value == 0 && |input| == g.used && room == 0 then r == Null(g.used)
         else r == Done(String(Vint, input[g.used..g.used + g.value]), g.used + g.value)
  {
    hide Modulus, Groups;
    VarintReadsExactly(input, W64);
  }

  /** What reading `t` after all of `before` gives. */
  function ThenOne(before: Outcome<seq<Value>>, r: Outcome<Value>): Outcome<seq<Value>>
    requires before.Done?
  {
    match r
    case Done(v, used) => Done(before.value + [v], before.used + used)
    case Short(used) => Short(before.used + used)
    case Null(used) => Null(before.used + used)
  }

  /** The values are read in order, each behind the one before; the first that fails ends the reading. */
  lemma {:induction false} DecodeAllInOrder(m: Machine, ts: seq<Type>, t: Type, input: seq<byte>, room: nat)
    requires TypeOk(t) && forall u :: u in ts ==> TypeOk(u)
    ensures DecodeAll(m, [], input, room) == Done([], 0)
    ensures var before := DecodeAll(m, ts, input, room);
      DecodeAll(m, ts + [t], input, room) ==
      if before.Done? then ThenOne(before, Decode(m, t, input[before.used..], room)) else before
    decreases |ts|
  {
    hide Decode;
    var all := ts + [t];
    if ts == [] {
      assert all == [t] && all[1..] == [] && input[0..] == input;
      var r := Decode(m, t, input, room);
      if r.Done? { assert [r.value] + [] == [] + [r.value]; }
    } else {
      assert all[0] == ts[0] && all[1..] == ts[1..] + [t];
      var r := Decode(m, ts[0], input, room);
      if r.Done? {
        DecodeAllInOrder(m, ts[1..], t, input[r.used..], room);
        var rest := DecodeAll(m, ts[1..], input[r.used..], room);
        if rest.Done? {
          assert input[r.used..][rest.used..] == input[r.used + rest.used..];
          var last := Decode(m, t, input[r.used + rest.used..], room);
          if last.Done? { assert [r.value] + (rest.value + [last.value]) == [r.value] + rest.value + [last.value]; }
        }
      }
    }
  }
}
