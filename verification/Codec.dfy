/** The wire format of ByteArray's typed values: fixed-width integers, varints, zigzag integers and strings. */
module Codec {
  import opened ByteArray

  // ---- fixed width ----

  datatype Width = W8 | W16 | W32 | W64

  function Bytes(w: Width): nat {
    match w case W8 => 1 case W16 => 2 case W32 => 4 case W64 => 8
  }

  function Modulus(w: Width): nat {
    match w case W8 => 0x100 case W16 => 0x1_0000 case W32 => 0x1_0000_0000 case W64 => 0x1_0000_0000_0000_0000
  }

  datatype Order = Little | Big

  /** The processor's byte order, the one the preprocessor settled on, and the one chosen for the array. */
  datatype Machine = Machine(host: Order, compiled: Order, chosen: Order)

  function LittleEndian(v: nat, n: nat): (r: seq<byte>)
    ensures |r| == n
  {
    if n == 0 then [] else [(v % 256) as byte] + LittleEndian(v / 256, n - 1)
  }

  function FromLittle(s: seq<byte>): nat {
    if s == [] then 0 else s[0] as nat + 256 * FromLittle(s[1..])
  }

  function Power(n: nat): (r: nat)
    ensures r > 0
  {
    if n == 0 then 1 else 256 * Power(n - 1)
  }

  lemma PowerIsModulus(w: Width)
    ensures Power(Bytes(w)) == Modulus(w)
  {
    assert Power(1) == 0x100;
    assert Power(2) == 0x1_0000;
    assert Power(3) == 0x100_0000;
    assert Power(4) == 0x1_0000_0000;
    assert Power(5) == 0x100_0000_0000;
    assert Power(6) == 0x1_0000_0000_0000;
    assert Power(7) == 0x100_0000_0000_0000;
    assert Power(8) == 0x1_0000_0000_0000_0000;
  }

  lemma {:induction false} LittleThere(v: nat, n: nat)
    requires v < Power(n)
    ensures FromLittle(LittleEndian(v, n)) == v
    decreases n
  {
    if n > 0 {
      LittleThere(v / 256, n - 1);
      assert LittleEndian(v, n)[1..] == LittleEndian(v / 256, n - 1);
    }
  }

  lemma {:induction false} LittleBack(s: seq<byte>)
    ensures FromLittle(s) < Power(|s|) && LittleEndian(FromLittle(s), |s|) == s
    decreases |s|
  {
    if s != [] {
      LittleBack(s[1..]);
      var v := FromLittle(s);
      assert v / 256 == FromLittle(s[1..]) && v % 256 == s[0] as nat;
      assert s == [s[0]] + s[1..];
    }
  }

  function Reverse(s: seq<byte>): (r: seq<byte>)
    ensures |r| == |s|
  {
    seq(|s|, i requires 0 <= i < |s| => s[|s| - 1 - i])
  }

  lemma ReverseTwice(s: seq<byte>)
    ensures Reverse(Reverse(s)) == s
  {
  }

  /** 256 to the power of `k` parts the number into bytes, the least significant first. */
  lemma {:induction false} LittleBytes(v: nat, n: nat, k: nat)
    requires k < n
    ensures LittleEndian(v, n)[k] as nat == v / Power(k) % 256
    decreases k
  {
    if k > 0 {
      LittleBytes(v / 256, n - 1, k - 1);
      DivTwice(v, 256, Power(k - 1));
    } else {
      assert Power(0) == 1;
    }
  }

  lemma DivTwice(v: nat, a: nat, b: nat)
    requires a > 0 && b > 0
    ensures a * b > 0 && v / a / b == v / (a * b)
  {
    var q, r := v / a / b, v / a % b;
    assert v / a == q * b + r;
    assert v == (q * b + r) * a + v % a;
    SplitProduct(q, b, r, a);
    var rest := r * a + v % a;
    RestBelow(r, a, b, v % a);
    assert v == q * (a * b) + rest;
    DivOfSum(q, a * b, rest);
  }

  lemma SplitProduct(q: nat, b: nat, r: nat, a: nat)
    ensures (q * b + r) * a == q * (a * b) + r * a
  {
  }

  lemma RestBelow(r: nat, a: nat, b: nat, m: nat)
    requires r < b && m < a
    ensures 0 <= r * a + m < a * b
  {
    MulOrder(r, b, a);
  }

  /** How an integer lies in memory, and what a load from those bytes gives. */
  function Image(host: Order, v: nat, n: nat): (r: seq<byte>)
    ensures |r| == n
  {
    if host.Little? then LittleEndian(v, n) else Reverse(LittleEndian(v, n))
  }

  function Load(host: Order, s: seq<byte>): nat {
    FromLittle(if host.Little? then s else Reverse(s))
  }

  /** byteswap. */
  function Swap(v: nat, n: nat): nat {
    FromLittle(Reverse(LittleEndian(v, n)))
  }

  function EncodeFixed(m: Machine, v: nat, n: nat): (r: seq<byte>)
    ensures |r| == n
  {
    Image(m.host, if m.chosen != m.compiled then Swap(v, n) else v, n)
  }

  function DecodeFixed(m: Machine, s: seq<byte>): nat {
    var v := Load(m.host, s);
    if m.chosen == m.compiled then v else Swap(v, |s|)
  }

  lemma LoadsImage(host: Order, v: nat, n: nat)
    requires v < Power(n)
    ensures Load(host, Image(host, v, n)) == v
  {
    ReverseTwice(LittleEndian(v, n));
    LittleThere(v, n);
  }

  lemma SwapTwice(v: nat, n: nat)
    requires v < Power(n)
    ensures Swap(v, n) < Power(n) && Swap(Swap(v, n), n) == v
  {
    var s := LittleEndian(v, n);
    LittleBack(Reverse(s));
    ReverseTwice(s);
    LittleThere(v, n);
  }

  /** Fixed-width integers come back whatever the byte orders are. */
  lemma FixedRoundTrip(m: Machine, v: nat, n: nat)
    requires v < Power(n)
    ensures DecodeFixed(m, EncodeFixed(m, v, n)) == v
  {
    SwapTwice(v, n);
    LoadsImage(m.host, if m.chosen != m.compiled then Swap(v, n) else v, n);
  }

  /** And any bytes at all are the encoding of what they are read as. */
  lemma FixedReadBack(m: Machine, s: seq<byte>)
    ensures DecodeFixed(m, s) < Power(|s|) && EncodeFixed(m, DecodeFixed(m, s), |s|) == s
  {
    var v := Load(m.host, s);
    LittleBack(s);
    LittleBack(Reverse(s));
    ReverseTwice(s);
    SwapTwice(v, |s|);
  }

  /** The bytes have the chosen order when the compiled-in order is the processor's, and the opposite one otherwise. */
  lemma WireOrder(m: Machine, v: nat, n: nat)
    requires v < Power(n)
    ensures EncodeFixed(m, v, n) == if (m.chosen == Little) == (m.host == m.compiled) then LittleEndian(v, n)
                                    else Reverse(LittleEndian(v, n))
  {
    var s := LittleEndian(v, n);
    LittleBack(Reverse(s));
    ReverseTwice(s);
    LittleThere(v, n);
  }

  // ---- two's complement and zigzag ----

  predicate InRange(n: int, w: Width, signed: bool) {
    if signed then -(Modulus(w) / 2) <= n < Modulus(w) / 2 else 0 <= n < Modulus(w)
  }

  function ToUnsigned(n: int, w: Width): (r: nat)
    requires -(Modulus(w) / 2) <= n < Modulus(w)
    ensures r < Modulus(w)
  {
    if n < 0 then n + Modulus(w) else n
  }

  function ToSigned(u: nat, w: Width): int {
    if u >= Modulus(w) / 2 then u - Modulus(w) else u
  }

  function Wrap(a: int, w: Width): (r: nat)
    ensures r < Modulus(w)
  {
    a % Modulus(w)
  }

  /** Negation and doubling wrap; that covers the smallest value, whose negation does not exist. */
  function Zigzag(n: int, w: Width): nat
    requires InRange(n, w, true)
  {
    Wrap(if n < 0 then ToUnsigned(ToSigned(-n, w), w) * 2 - 1 else n * 2, w)
  }

  /** Exclusive or with minus the low bit: with all ones it complements, with zero it keeps. */
  function Unzigzag(u: nat, w: Width): int
    requires u < Modulus(w)
  {
    ToSigned(if u % 2 == 1 then Modulus(w) - 1 - u / 2 else u / 2, w)
  }

  lemma Half(w: Width) returns (h: nat)
    ensures Modulus(w) == 2 * h && Modulus(w) / 2 == h && h > 0
  {
    h := Modulus(w) / 2;
  }

  lemma WrapsDown(a: nat, w: Width)
    ensures Wrap(a, w) <= a
  {
  }

  lemma WrapsNot(a: nat, w: Width)
    requires a < Modulus(w)
    ensures Wrap(a, w) == a
  {
  }

  /** Minus the smallest value is the smallest value again; as an unsigned number that is its magnitude. */
  lemma Magnitude(n: int, w: Width)
    requires InRange(n, w, true) && n < 0
    ensures ToUnsigned(ToSigned(-n, w), w) == -n
  {
    hide Modulus;
    var h := Half(w);
  }

  /** Zigzag is a bijection between the signed and the unsigned values, small magnitudes first. */
  lemma ZigzagInverse(n: int, w: Width)
    requires InRange(n, w, true)
    ensures Zigzag(n, w) < Modulus(w) && Unzigzag(Zigzag(n, w), w) == n
    ensures Zigzag(n, w) == if n < 0 then 2 * -n - 1 else 2 * n
  {
    hide Modulus, Wrap, ToUnsigned;
    var h := Half(w);
    if n < 0 { Magnitude(n, w); }
    WrapsNot(if n < 0 then -n * 2 - 1 else n * 2, w);
  }

  lemma UnzigzagInverse(u: nat, w: Width)
    requires u < Modulus(w)
    ensures InRange(Unzigzag(u, w), w, true) && Zigzag(Unzigzag(u, w), w) == u
  {
    hide Modulus, Wrap, ToUnsigned;
    var h := Half(w);
    var n := Unzigzag(u, w);
    assert n == if u % 2 == 1 then -(u / 2) - 1 else u / 2;
    if n < 0 { Magnitude(n, w); }
    WrapsNot(u, w);
  }

  // ---- varints ----

  function Varint(v: nat): (r: seq<byte>)
    ensures |r| > 0
    decreases v
  {
    if v < 128 then [v as byte] else [(v % 128 + 128) as byte] + Varint(v / 128)
  }

  /** What a decoder ends in, and how many bytes it took. */
  datatype Outcome<+T> = Done(value: T, used: nat) | Short(used: nat) | Null(used: nat)

  /** The seven-bit groups of at most `limit` bytes, up to one without the top bit. */
  function Groups(s: seq<byte>, limit: nat): Outcome<nat>
    decreases limit
  {
    if limit == 0 then Done(0, 0) else
    if s == [] then Short(0) else
    if s[0] < 128 then Done(s[0] as nat, 1) else
    match Groups(s[1..], limit - 1)
    case Done(v, used) => Done(s[0] as nat - 128 + 128 * v, used + 1)
    case Short(used) => Short(used + 1)
    case Null(used) => Null(used + 1)
  }

  function Limit(w: Width): nat {
    if w == W64 then 10 else 5
  }

  function DecodeVarint(s: seq<byte>, w: Width): Outcome<nat> {
    match Groups(s, Limit(w))
    case Done(v, used) => Done(Wrap(v, w), used)
    case Short(used) => Short(used)
    case Null(used) => Null(used)
  }

  /** 128 to the power of `k`. */
  function Scale(k: nat): (r: nat)
    ensures r > 0
  {
    if k == 0 then 1 else 128 * Scale(k - 1)
  }

  /** The length is the number of seven-bit groups the value needs. */
  lemma {:induction false} VarintLength(v: nat, k: nat)
    ensures |Varint(v)| <= k <==> k > 0 && v < Scale(k)
    decreases k
  {
    if k > 0 && v >= 128 {
      VarintLength(v / 128, k - 1);
    }
    if k == 1 { assert Scale(1) == 128 * Scale(0); }
  }

  /** Byte `k` holds group `k`, the least significant first, with the top bit set but in the last byte. */
  lemma {:induction false} VarintBytes(v: nat, k: nat)
    requires k < |Varint(v)|
    ensures Varint(v)[k] as nat == v / Scale(k) % 128 + if k < |Varint(v)| - 1 then 128 else 0
    decreases k
  {
    if k > 0 {
      VarintBytes(v / 128, k - 1);
      DivTwice(v, 128, Scale(k - 1));
    } else {
      assert Scale(0) == 1;
    }
  }

  lemma Scales()
    ensures Scale(1) == 0x80 && Scale(5) == 0x8_0000_0000 && Scale(9) == 0x8000_0000_0000_0000
    ensures Scale(10) == 0x40_0000_0000_0000_0000
  {
    assert Scale(2) == 0x4000;
    assert Scale(3) == 0x20_0000;
    assert Scale(4) == 0x1000_0000;
    assert Scale(6) == 0x400_0000_0000;
    assert Scale(7) == 0x2_0000_0000_0000;
    assert Scale(8) == 0x100_0000_0000_0000;
  }

  /** One to five and one to ten bytes. */
  lemma VarintLengths(v: nat, w: Width)
    requires (w == W32 || w == W64) && v < Modulus(w)
    ensures 1 <= |Varint(v)| <= if w == W32 then 5 else 10
  {
    Scales();
    VarintLength(v, Limit(w));
  }

  /** Decoding stops at the last byte of the encoding, whatever follows. */
  lemma {:induction false} GroupsOfVarint(v: nat, rest: seq<byte>, limit: nat)
    requires |Varint(v)| <= limit
    ensures Groups(Varint(v) + rest, limit) == Done(v, |Varint(v)|)
    decreases v
  {
    if v >= 128 {
      GroupsOfVarint(v / 128, rest, limit - 1);
      assert (Varint(v) + rest)[1..] == Varint(v / 128) + rest;
    }
  }

  lemma VarintRoundTrip(v: nat, rest: seq<byte>, w: Width)
    requires (w == W32 || w == W64) && v < Modulus(w)
    ensures DecodeVarint(Varint(v) + rest, w) == Done(v, |Varint(v)|)
  {
    VarintLengths(v, w);
    GroupsOfVarint(v, rest, Limit(w));
  }

  /** What the low seven bits of the bytes stand for, the least significant first. */
  function Payload(s: seq<byte>): nat {
    if s == [] then 0 else s[0] as nat % 128 + 128 * Payload(s[1..])
  }

  lemma {:induction false} GroupsExactly(s: seq<byte>, limit: nat)
    ensures var g := Groups(s, limit);
      && (g.Short? <==> |s| < limit && forall k :: 0 <= k < |s| ==> s[k] >= 128)
      && (g.Short? ==> g.used == |s|) && !g.Null?
      && (g.Done? ==> g.used <= |s| && g.used <= limit && g.value == Payload(s[..g.used])
                      && (forall k :: 0 <= k < g.used - 1 ==> s[k] >= 128)
                      && (g.used < limit ==> g.used > 0 && s[g.used - 1] < 128))
    decreases limit
  {
    if limit > 0 && s != [] && s[0] >= 128 {
      GroupsExactly(s[1..], limit - 1);
      var g := Groups(s[1..], limit - 1);
      if g.Short? {
        forall k | 0 <= k < |s| ensures s[k] >= 128 { if k > 0 { assert s[k] == s[1..][k - 1]; } }
      } else {
        assert s[..g.used + 1][1..] == s[1..][..g.used];
        forall k | 0 <= k < g.used ensures s[k] >= 128 { if k > 0 { assert s[k] == s[1..][k - 1]; } }
      }
    } else if limit > 0 && s != [] {
      assert s[..1][1..] == [];
    }
  }

  /**
   Any bytes at all: reading a varint takes bytes up to the first without the top bit, but at most five or ten of them,
   and puts their low bits together, cut to the width; it fails exactly when the bytes end before that.
   */
  lemma VarintReadsExactly(s: seq<byte>, w: Width)
    requires w == W32 || w == W64
    ensures var r, most := DecodeVarint(s, w), if w == W32 then 5 else 10;
      && !r.Null? && r.used <= |s| && r.used <= most
      && (r.Short? <==> |s| < most && forall k :: 0 <= k < |s| ==> s[k] >= 128)
      && (r.Short? ==> r.used == |s|)
      && (r.Done? ==> r.value == Payload(s[..r.used]) % (if w == W32 then 0x1_0000_0000 else 0x1_0000_0000_0000_0000)
                      && (forall k :: 0 <= k < r.used - 1 ==> s[k] >= 128)
                      && (r.used < most ==> r.used > 0 && s[r.used - 1] < 128))
  {
    GroupsExactly(s, Limit(w));
  }

  /** No encoding begins another. */
  lemma PrefixFree(a: nat, b: nat)
    requires Varint(a) <= Varint(b)
    ensures a == b
  {
    GroupsOfVarint(a, Varint(b)[|Varint(a)|..], |Varint(b)|);
    GroupsOfVarint(b, [], |Varint(b)|);
    assert Varint(b) == Varint(a) + Varint(b)[|Varint(a)|..] == Varint(b) + [];
  }

  /** Any bytes that decode to a value are at least as many as its encoding. */
  lemma {:induction false} GroupsAtLeast(s: seq<byte>, limit: nat)
    requires limit > 0 && Groups(s, limit).Done?
    ensures |Varint(Groups(s, limit).value)| <= Groups(s, limit).used
    decreases limit
  {
    var v := Groups(s, limit).value;
    if s[0] >= 128 && v >= 128 {
      assert v / 128 == Groups(s[1..], limit - 1).value;
      GroupsAtLeast(s[1..], limit - 1);
    }
  }

  lemma Shortest(s: seq<byte>, w: Width)
    requires DecodeVarint(s, w).Done?
    ensures |Varint(DecodeVarint(s, w).value)| <= DecodeVarint(s, w).used
  {
    hide Wrap, Varint, Groups, Scale;
    GroupsAtLeast(s, Limit(w));
    var v := Groups(s, Limit(w)).value;
    var k := |Varint(v)|;
    WrapsDown(v, w);
    VarintLength(v, k);
    VarintLength(Wrap(v, w), k);
  }

  /** Seven bits as group number `k`. */
  function Shifted(k: nat, bits: nat): nat {
    Scale(k) * bits
  }

  /** Groups that follow `k` bytes worth `low`. */
  function After(o: Outcome<nat>, low: nat, k: nat): Outcome<nat> {
    match o
    case Done(v, used) => Done(low + Shifted(k, v), used + k)
    case Short(used) => Short(used + k)
    case Null(used) => Null(used + k)
  }

  /** One round of the decoding loop. */
  lemma OneGroup(s: seq<byte>, low: nat, k: nat, limit: nat)
    requires limit > 0 && s != []
    ensures s[0] < 128 ==> After(Groups(s, limit), low, k) == Done(low + Shifted(k, s[0] as nat), k + 1)
    ensures s[0] >= 128 ==>
      (After(Groups(s, limit), low, k) == After(Groups(s[1..], limit - 1), low + Shifted(k, s[0] as nat - 128), k + 1))
  {
    var g := Groups(s[1..], limit - 1);
    if s[0] >= 128 && g.Done? {
      assert Scale(k + 1) == 128 * Scale(k);
      Distributed(Scale(k), s[0] as nat - 128, g.value);
    }
  }

  lemma Distributed(k: nat, a: nat, b: nat)
    ensures k * (a + 128 * b) == k * a + 128 * k * b
  {
  }

  /** Truncating at every step is truncating at the end. */
  lemma TruncateEachStep(a: nat, x: nat, w: Width)
    ensures Wrap(Wrap(a, w) + x, w) == Wrap(a + x, w)
  {
    hide Modulus;
    var h := Half(w);
    RemainderOfSum(a, x, Modulus(w));
  }

  lemma RemainderOfSum(a: nat, x: nat, m: nat)
    requires m > 0
    ensures (a % m + x) % m == (a + x) % m
  {
    var q := a / m;
    assert a == q * m + a % m;
    RemainderOf(a % m + x, q, m);
    assert a + x == a % m + x + q * m;
  }

  lemma RemainderOf(x: nat, q: nat, m: nat)
    requires m > 0
    ensures (x + q * m) % m == x % m
  {
    assert x == (x / m) * m + x % m;
    Distribute(x / m, q, m);
    DivOfSum(x / m + q, m, x % m);
  }
}
