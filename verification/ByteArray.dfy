/**
 ByteArray: a linked list of equally sized nodes with a cursor, seen from outside as one flat memory with a position
 and a size.
 */
module ByteArray {

  newtype byte = x: int | 0 <= x < 256

  /** What a call ends in: a value, the exception for too few bytes, or a dereference of a null node. */
  datatype Result<+T> = Ok(value: T) | OutOfRange | NullNode

  // ---- arithmetic of positions ----

  lemma {:induction false} MulOrder(a: int, b: int, c: nat)
    requires a < b
    ensures a * c + c <= b * c
    decreases b - a
  {
    if a + 1 < b {
      MulOrder(a + 1, b, c);
    }
    assert (a + 1) * c == a * c + c;
  }

  lemma Distribute(a: int, b: int, c: int)
    ensures (a + b) * c == a * c + b * c
  {
  }

  /** A position has one node and one offset. */
  lemma DivOfSum(c: nat, b: nat, j: nat)
    requires 0 < b && j < b
    ensures (c * b + j) / b == c && (c * b + j) % b == j
  {
    var q := (c * b + j) / b;
    if q < c {
      MulOrder(q, c, b);
    } else if q > c {
      MulOrder(c, q, b);
    }
  }

  // ---- addCapacity ----

  /** The nodes added for `n` bytes when `free` bytes are left. */
  function NodesFor(base: nat, free: nat, n: nat): nat
    requires base > 0
  {
    if n <= free then 0 else
    (n - free) / base + if (n - free) % base > free then 1 else 0
  }

  function FreeAfter(base: nat, free: nat, n: nat): nat
    requires base > 0
  {
    free + NodesFor(base, free, n) * base
  }

  /** When the request is met: the remainder is dropped only if it does not exceed the old free space. */
  predicate Fits(base: nat, free: nat, n: nat)
    requires base > 0
  {
    n <= free || (n - free) % base == 0 || (n - free) % base > free
  }

  /** Enough bytes are free afterwards exactly when the request Fits. */
  lemma CapacityExactly(base: nat, free: nat, n: nat)
    requires base > 0
    ensures FreeAfter(base, free, n) >= n <==> Fits(base, free, n)
  {
    if n > free {
      var q, r := (n - free) / base, (n - free) % base;
      assert n - free == q * base + r;
      Distribute(q, if r > free then 1 else 0, base);
    }
  }

  /** The node size of a byte array made without one. */
  const DEFAULT_BASE: nat := 4096

  /**
   While a whole node is free, as in a new array, a request beyond the free space is met only if it leaves no remainder;
   with nothing free, every request is met.
   */
  lemma FitsBesideAFreeNode(base: nat, free: nat, n: nat)
    requires base > 0
    ensures base <= free ==> (Fits(base, free, n) <==> n <= free || (n - free) % base == 0)
    ensures free == 0 ==> Fits(base, free, n)
  {
    if n > free {
      assert (n - free) % base < base;
    }
  }

  /** The first write into a new array of node size `base` runs off the list unless it is short or fills whole nodes. */
  lemma FirstWriteFits(base: nat, n: nat)
    requires base > 0
    ensures Fits(base, base, n) <==> n <= base || n % base == 0
  {
    FitsBesideAFreeNode(base, base, n);
    if n > base {
      var q, r := (n - base) / base, (n - base) % base;
      assert n == q * base + base + r == (q + 1) * base + r;
      DivOfSum(q + 1, base, r);
    }
  }

  /** With the default node size, 4097 bytes are enough. */
  lemma FirstWriteRunsOff()
    ensures !Fits(DEFAULT_BASE, DEFAULT_BASE, 4097)
  {
    FirstWriteFits(DEFAULT_BASE, 4097);
  }

  /** When the request Fits, no smaller number of nodes would meet it. */
  lemma LeastNodes(base: nat, free: nat, n: nat, k: nat)
    requires base > 0 && Fits(base, free, n) && free + k * base >= n
    ensures k >= NodesFor(base, free, n)
  {
    if n > free {
      var q, r := (n - free) / base, (n - free) % base;
      assert n - free == q * base + r;
      if k < q { MulOrder(k, q, base); }
    }
  }

  lemma NoRequest(base: nat, free: nat)
    requires base > 0
    ensures NodesFor(base, free, 0) == 0 && Fits(base, free, 0)
  {
  }

  /** A request on a full array adds a node. */
  lemma SomeNode(base: nat, n: nat)
    requires base > 0 && n > 0
    ensures NodesFor(base, 0, n) > 0
  {
    if n / base == 0 { assert n == (n / base) * base + n % base; }
  }

  function Max(a: nat, b: nat): nat {
    if a > b then a else b
  }

  function Min(a: nat, b: nat): nat {
    if a < b then a else b
  }

  // ---- the flat memory ----

  /** The memory holds `data` at `start`. */
  predicate Contains(m: seq<byte>, start: nat, data: seq<byte>) {
    start + |data| <= |m| && forall j :: 0 <= j < |data| ==> data[j] == m[start + j]
  }

  /** Overwriting part of a sequence. */
  function Overwrite(m: seq<byte>, at: nat, bytes: seq<byte>): (r: seq<byte>)
    requires at + |bytes| <= |m|
    ensures |r| == |m|
    ensures forall k :: 0 <= k < |m| ==> r[k] == if at <= k < at + |bytes| then bytes[k - at] else m[k]
  {
    m[..at] + bytes + m[at + |bytes|..]
  }

  lemma OverwriteNothing(m: seq<byte>, p: nat, none: seq<byte>)
    requires p <= |m| && none == []
    ensures Overwrite(m, p, none) == m
  {
  }

  lemma OverwriteMore(m: seq<byte>, p: nat, buf: seq<byte>, i: nat, len: nat)
    requires i + len <= |buf| && p + i + len <= |m|
    ensures Overwrite(Overwrite(m, p, buf[..i]), p + i, buf[i..i + len]) == Overwrite(m, p, buf[..i + len])
  {
  }

  /** What a write of `buf` at position `p` leaves: those bytes, and every other byte that was there before. */
  predicate Pasted(before: seq<byte>, p: nat, buf: seq<byte>, after: seq<byte>) {
    && |before| <= |after| && p <= |before| && p + |buf| <= |after| && after[p..p + |buf|] == buf
    && forall k :: 0 <= k < |before| && !(p <= k < p + |buf|) ==> after[k] == before[k]
  }

  /** Two writes in a row are one write of both. */
  lemma PastedMore(m0: seq<byte>, m1: seq<byte>, m2: seq<byte>, p: nat, a: seq<byte>, b: seq<byte>)
    requires Pasted(m0, p, a, m1) && Pasted(m1, p + |a|, b, m2)
    ensures Pasted(m0, p, a + b, m2)
  {
    assert m2[p..p + |a|] == a by {
      forall k | p <= k < p + |a| ensures m2[k] == a[k - p] { assert m1[p..p + |a|][k - p] == a[k - p]; }
    }
    assert m2[p..p + |a + b|] == m2[p..p + |a|] + m2[p + |a|..p + |a| + |b|];
  }

  lemma PastedWritten(before: seq<byte>, grown: seq<byte>, p: nat, buf: seq<byte>)
    requires before <= grown && p <= |before| && p + |buf| <= |grown|
    ensures Pasted(before, p, buf, Overwrite(grown, p, buf))
  {
  }

  lemma PastedNothing(before: seq<byte>, p: nat, after: seq<byte>)
    requires before <= after && p <= |before|
    ensures Pasted(before, p, [], after)
  {
  }

  lemma SliceConcat(m: seq<byte>, a: nat, b: nat, c: nat)
    requires a <= b <= c <= |m|
    ensures m[a..b] + m[b..c] == m[a..c]
  {
  }

  lemma ContainsAfterWrite(m: seq<byte>, start: nat, data: seq<byte>, npos: nat, bytes: seq<byte>)
    requires Contains(m, start, data) && npos + |bytes| <= |data|
    ensures Contains(Overwrite(m, start + npos, bytes), start, Overwrite(data, npos, bytes))
  {
  }

  lemma ContainsElsewhere(m: seq<byte>, start: nat, data: seq<byte>, at: nat, bytes: seq<byte>)
    requires Contains(m, start, data) && at + |bytes| <= |m| && (at + |bytes| <= start || start + |data| <= at)
    ensures Contains(Overwrite(m, at, bytes), start, data)
  {
  }

  lemma ContainsExtended(m: seq<byte>, start: nat, data: seq<byte>, more: seq<byte>)
    requires Contains(m, start, data)
    ensures Contains(m + more, start, data)
  {
  }

  lemma ContainsCut(m: seq<byte>, data: seq<byte>, end: nat)
    requires Contains(m, 0, data) && |data| == end <= |m|
    ensures Contains(m[..end], 0, data)
  {
  }

  lemma ContainsEnd(m: seq<byte>, more: seq<byte>)
    ensures Contains(m + more, |m|, more)
  {
  }

  /** `start` is where the node's bytes begin in the flat memory. */
  class Node {
    const data: array<byte>
    ghost const start: nat
    var next: Node?

    constructor (size: nat, ghost start: nat)
      ensures fresh(data) && data.Length == size && next == null && this.start == start
    {
      data := new byte[size];
      this.start := start;
      next := null;
    }
  }

  method Poke(a: array<byte>, npos: nat, buf: seq<byte>, bpos: nat, len: nat)
    requires npos + len <= a.Length && bpos + len <= |buf|
    modifies a
    ensures a[..] == Overwrite(old(a[..]), npos, buf[bpos..bpos + len])
  {
    forall k | 0 <= k < len {
      a[npos + k] := buf[bpos + k];
    }
  }

  method NodeCount(base: nat, free: nat, need: nat) returns (count: nat)
    requires base > 0 && free < need
    ensures count == NodesFor(base, free, need)
  {
    var missing := need - free;
    count := missing / base;
    if missing % base > free { count := count + 1; }
  }

  /** A stretch of one node's buffer, as handed to readv and writev. */
  datatype IoVec = IoVec(data: array<byte>, off: nat, len: nat)

  ghost function BuffersOf(iovs: seq<IoVec>): set<object> {
    set v | v in iovs :: v.data
  }

  /** What writev sends. */
  function Gather(iovs: seq<IoVec>): seq<byte>
    requires forall v :: v in iovs ==> v.off + v.len <= v.data.Length
    reads BuffersOf(iovs)
  {
    if iovs == [] then [] else
    var first := iovs[0];
    assert forall v :: v in iovs[1..] ==> v in iovs;
    first.data[first.off..first.off + first.len] + Gather(iovs[1..])
  }

  class ByteArray {
    const base: nat
    var position: nat
    var capacity: nat
    var size: nat
    var root: Node
    var cur: Node?
    /** The list from the root on, and its buffers as one flat memory. */
    ghost var nodes: seq<Node>
    ghost var mem: seq<byte>

    /** Which node each buffer belongs to. */
    ghost var owner: map<array<byte>, nat>

    /** Node number `i` of the list, null behind the last one. */
    ghost function Nth(i: nat): Node?
      reads this`nodes
    {
      if i < |nodes| then nodes[i] else null
    }

    ghost predicate LinkedAt(i: nat)
      requires i < |nodes|
      reads this`nodes, this`owner, nodes
    {
      var n := nodes[i];
      && n.data.Length == base && n.next == Nth(i + 1) && n.data in owner && owner[n.data] == i
      && (n.next != null ==> n.next.start == n.start + base)
    }

    /** The nodes are linked in order, lie one behind the other in the memory and have buffers of their own. */
    ghost predicate Listed()
      reads this`nodes, this`owner, this`root, nodes
    {
      && base > 0 && |nodes| > 0 && root == nodes[0] && root.start == 0
      && forall i :: 0 <= i < |nodes| ==> LinkedAt(i)
    }

    /** Where the last node ends. */
    ghost function End(): nat
      requires |nodes| > 0
      reads this`nodes
    {
      nodes[|nodes| - 1].start + base
    }

    ghost predicate Linked()
      reads this`nodes, this`owner, this`root, this`mem, this`capacity, nodes
    {
      Listed() && |mem| == capacity == End()
    }

    /** The memory is what the buffers hold. */
    ghost predicate Mirrors(n: Node)
      reads this`mem, n.data
    {
      Contains(mem, n.start, n.data[..])
    }

    ghost predicate Shape()
      reads this`nodes, this`owner, this`root, this`mem, this`capacity, nodes, owner.Keys
    {
      && Linked()
      && forall i :: 0 <= i < |nodes| ==> LinkedAt(i) && nodes[i].data in owner.Keys && Mirrors(nodes[i])
    }

    /** `n` is the node that holds position `p`, or null when `p` is the end of the capacity. */
    ghost predicate StandsAt(n: Node?, p: nat)
      reads this`nodes, this`capacity
    {
      if n == null then p == capacity else n in nodes && n.start <= p < n.start + base
    }

    ghost predicate Valid()
      reads this, nodes, owner.Keys
    {
      Shape() && position <= size <= capacity && StandsAt(cur, position)
    }

    /** The array with its nodes and buffers. */
    ghost function Repr(): set<object>
      reads this`nodes, this`owner
    {
      var all: set<object> := (set n: Node | n in nodes);
      all + (set a: array<byte> | a in owner.Keys) + {this}
    }

    /** What the capacity has behind the size. */
    ghost function Room(): nat
      requires Valid()
      reads this, nodes, owner.Keys
    {
      capacity - size
    }

    /** What can still be read. */
    ghost function Readable(): seq<byte>
      requires Valid()
      reads this, nodes, owner.Keys
    {
      mem[position..size]
    }

    constructor (base: nat)
      requires base > 0
      ensures Valid() && fresh(nodes) && fresh(owner.Keys) && this.base == base
      ensures position == size == 0 && capacity == base
    {
      this.base, position, capacity, size := base, 0, base, 0;
      var n := new Node(base, 0);
      root, cur, nodes, mem, owner := n, n, [n], n.data[..], map[n.data := 0];
    }

    /** Where node number `i` starts. */
    lemma {:induction false} StartOf(i: nat)
      requires Linked() && i < |nodes|
      ensures nodes[i].start == i * base
      decreases i
    {
      if i > 0 {
        StartOf(i - 1);
        assert LinkedAt(i - 1);
        assert i * base == (i - 1) * base + base;
      }
    }

    /** Nodes lie in the order of the list. */
    lemma {:induction false} InOrder(i: nat, j: nat)
      requires Linked() && i < j < |nodes|
      ensures nodes[i].start + base <= nodes[j].start && nodes[j].start + base <= capacity
      decreases j - i
    {
      assert LinkedAt(i);
      if i + 1 < j {
        InOrder(i + 1, j);
      } else if j + 1 < |nodes| {
        StartOf(j);
        StartOf(|nodes| - 1);
        MulOrder(j, |nodes| - 1, base);
      }
    }

    lemma Apart(i0: nat)
      requires Linked() && i0 < |nodes|
      ensures forall i :: 0 <= i < |nodes| && i != i0 ==> nodes[i].data != nodes[i0].data
      ensures forall i :: 0 <= i < |nodes| && i != i0 ==>
        nodes[i].start + base <= nodes[i0].start || nodes[i0].start + base <= nodes[i].start
    {
      forall i | 0 <= i < |nodes| && i != i0
        ensures nodes[i].data != nodes[i0].data
        ensures nodes[i].start + base <= nodes[i0].start || nodes[i0].start + base <= nodes[i].start
      {
        assert LinkedAt(i) && LinkedAt(i0);
        if i < i0 { InOrder(i, i0); } else { InOrder(i0, i); }
      }
    }

    lemma Inside(n: Node) returns (i: nat)
      requires Linked() && n in nodes
      ensures i < |nodes| && nodes[i] == n && LinkedAt(i) && n.start + base <= capacity
      ensures n.data.Length == base
    {
      i :| 0 <= i < |nodes| && nodes[i] == n;
      assert LinkedAt(i);
      if i < |nodes| - 1 { InOrder(i, |nodes| - 1); }
    }

    /** The capacity is that of all nodes; a node starts at a multiple of the base size. */
    lemma Offsets(n: Node?, p: nat)
      requires Linked() && StandsAt(n, p)
      ensures capacity == |nodes| * base && p <= capacity
      ensures n == Nth(p / base)
      ensures n != null ==> p % base == p - n.start && n.start + base <= capacity && n.data.Length == base
      ensures n == null ==> p % base == 0
    {
      StartOf(|nodes| - 1);
      assert |nodes| * base == (|nodes| - 1) * base + base;
      if n == null {
        DivOfSum(|nodes|, base, 0);
      } else {
        var i := Inside(n);
        StartOf(i);
        DivOfSum(i, base, p - n.start);
      }
    }

    /** The node behind `n` holds the position where `n` ends. */
    lemma NextStands(n: Node)
      requires Linked() && n in nodes
      ensures StandsAt(n.next, n.start + base) && n.start + base <= capacity && n.data.Length == base
      ensures n.next != null ==> n.next.start == n.start + base
      ensures n.next == null <==> n.start + base == capacity
    {
      var i := Inside(n);
      if i < |nodes| - 1 { InOrder(i, |nodes| - 1); }
    }

    /** The other nodes and the list are as before, node `i0` holds what was written. */
    lemma ShapeAfterWrite(i0: nat, m: seq<byte>, at: nat, bytes: seq<byte>)
      requires Linked() && i0 < |nodes| && at + |bytes| <= |m| && mem == Overwrite(m, at, bytes)
      requires nodes[i0].start <= at && at + |bytes| <= nodes[i0].start + base && Mirrors(nodes[i0])
      requires forall i :: 0 <= i < |nodes| && i != i0 ==> Contains(m, nodes[i].start, nodes[i].data[..])
      ensures Shape()
    {
      Apart(i0);
      forall i | 0 <= i < |nodes| ensures LinkedAt(i) && nodes[i].data in owner.Keys && Mirrors(nodes[i]) {
        assert LinkedAt(i) && LinkedAt(i0);
        if i != i0 {
          ContainsElsewhere(m, nodes[i].start, nodes[i].data[..], at, bytes);
        }
      }
    }

    /** memcpy into the buffer `a` of one node. */
    method WriteChunk(ghost n: Node, a: array<byte>, npos: nat, buf: seq<byte>, bpos: nat, len: nat)
      requires Shape() && n in nodes && n.data == a && npos + len <= base && bpos + len <= |buf|
      modifies a, this`mem
      ensures Shape() && n.start + npos + len <= capacity
      ensures mem == Overwrite(old(mem), n.start + npos, buf[bpos..bpos + len])
    {
      hide Overwrite, Contains, LinkedAt, Listed;
      ghost var i0 := Inside(n);
      Apart(i0);
      assert Mirrors(nodes[i0]);
      ghost var m, d, bytes := mem, n.data[..], buf[bpos..bpos + len];
      mem := Overwrite(m, n.start + npos, bytes);
      Poke(a, npos, buf, bpos, len);
      forall i | 0 <= i < |nodes| && i != i0 ensures Contains(m, nodes[i].start, nodes[i].data[..]) {
        assert old(Mirrors(nodes[i])) && nodes[i].data != n.data;
        assert nodes[i].data[..] == old(nodes[i].data[..]);
      }
      ContainsAfterWrite(m, n.start, d, npos, bytes);
      ShapeAfterWrite(i0, m, n.start + npos, bytes);
    }

    /** memcpy out of one node. */
    method ReadChunk(n: Node, npos: nat, len: nat) returns (bytes: seq<byte>)
      requires Shape() && n in nodes && npos + len <= base
      ensures n.start + npos + len <= capacity && bytes == mem[n.start + npos..n.start + npos + len]
    {
      ghost var i := Inside(n);
      assert Mirrors(nodes[i]);
      bytes := n.data[npos..npos + len];
    }

    /** A new node behind the last one. */
    method Append(tmp: Node) returns (n: Node)
      requires Shape() && tmp == nodes[|nodes| - 1]
      modifies tmp, this`nodes, this`mem, this`capacity, this`owner
      ensures Shape() && nodes == old(nodes) + [n] && fresh(n) && owner.Keys == old(owner.Keys) + {n.data}
      ensures fresh(n.data) && old(mem) <= mem && capacity == old(capacity) + base
    {
      hide Contains, LinkedAt, Mirrors;
      n := new Node(base, capacity);
      Attach(tmp, n);
      Attached(tmp, n);
      Assembled();
    }

    method Attach(tmp: Node, n: Node)
      requires n != tmp
      modifies tmp, this`nodes, this`mem, this`capacity, this`owner
      ensures nodes == old(nodes) + [n] && mem == old(mem) + n.data[..] && capacity == old(capacity) + base
      ensures tmp.next == n && owner == old(owner)[n.data := |old(nodes)|]
    {
      tmp.next := n;
      owner := owner[n.data := |nodes|];
      nodes, mem, capacity := nodes + [n], mem + n.data[..], capacity + base;
    }

    twostate lemma Attached(tmp: Node, new n: Node)
      requires old(Shape()) && tmp == old(nodes[|nodes| - 1])
      requires n.data !in old(owner) && n !in old(nodes) && n.data.Length == base && n.next == null && n.start == old(capacity)
      requires nodes == old(nodes) + [n] && mem == old(mem) + n.data[..] && tmp.next == n
      requires owner == old(owner)[n.data := |old(nodes)|]
      requires forall x :: x in old(nodes) && x != tmp ==> unchanged(x)
      requires forall a :: a in old(owner) ==> unchanged(a)
      ensures forall i :: 0 <= i < |nodes| ==> LinkedAt(i) && nodes[i].data in owner.Keys && Mirrors(nodes[i])
    {
      hide Contains;
      assert old(LinkedAt(|nodes| - 1));
      ContainsEnd(old(mem), n.data[..]);
      forall i | 0 <= i < |nodes| ensures LinkedAt(i) && nodes[i].data in owner.Keys && Mirrors(nodes[i]) {
        if i < |old(nodes)| {
          assert old(LinkedAt(i) && nodes[i].data in owner.Keys && Mirrors(nodes[i]));
          assert nodes[i] == old(nodes[i]) && unchanged(nodes[i].data);
          assert nodes[i].data[..] == old(nodes[i].data[..]);
          ContainsExtended(old(mem), nodes[i].start, nodes[i].data[..], n.data[..]);
          if i < |old(nodes)| - 1 {
            assert nodes[i] in old(nodes) && nodes[i] != tmp && unchanged(nodes[i]);
            assert nodes[i + 1] == old(nodes[i + 1]);
          }
        }
      }
    }

    lemma Assembled()
      requires base > 0 && |nodes| > 0 && root == nodes[0] && root.start == 0 && |mem| == capacity == End()
      requires forall i :: 0 <= i < |nodes| ==> LinkedAt(i) && nodes[i].data in owner.Keys && Mirrors(nodes[i])
      ensures Shape()
    {
      hide LinkedAt, Mirrors;
    }

    /** The walk to the last node. */
    method LastNode() returns (tmp: Node)
      requires Linked()
      ensures tmp == nodes[|nodes| - 1]
    {
      tmp := root;
      ghost var last := 0;
      assert LinkedAt(0);
      while tmp.next != null
        invariant last < |nodes| && tmp == nodes[last] && tmp.next == Nth(last + 1)
        decreases |nodes| - last
      {
        tmp := tmp.next;
        last := last + 1;
        assert LinkedAt(last);
      }
    }

    /** Appends `count` nodes behind `tmp`; `first` is the first of them. */
    method AppendNodes(tmp: Node, count: nat) returns (first: Node?)
      requires Shape() && tmp == nodes[|nodes| - 1]
      modifies tmp, this`nodes, this`mem, this`capacity, this`owner
      ensures Shape() && |nodes| == |old(nodes)| + count && old(nodes) <= nodes
      ensures forall i :: |old(nodes)| <= i < |nodes| ==> fresh(nodes[i])
      ensures forall a :: a in owner ==> a in old(owner) || fresh(a)
      ensures old(mem) <= mem && first == Nth(|old(nodes)|)
    {
      first := null;
      var last := tmp;
      for i := 0 to count
        invariant Shape() && |nodes| == |old(nodes)| + i && last == nodes[|nodes| - 1] && (last == tmp || fresh(last))
        invariant old(nodes) <= nodes && (forall i :: |old(nodes)| <= i < |nodes| ==> fresh(nodes[i]))
        invariant forall a :: a in owner ==> a in old(owner) || fresh(a)
        invariant old(mem) <= mem && first == Nth(|old(nodes)|)
      {
        last := Append(last);
        if first == null { first := last; }
      }
    }

    /** Appends `count` nodes; a cursor at the end of the capacity moves to the first of them. */
    method Grow(count: nat)
      requires Valid() && (position == capacity ==> count > 0)
      modifies this`capacity, this`cur, this`nodes, this`mem, this`owner, nodes
      ensures Valid() && old(nodes) <= nodes && (forall i :: |old(nodes)| <= i < |nodes| ==> fresh(nodes[i]))
      ensures forall a :: a in owner ==> a in old(owner) || fresh(a)
      ensures old(mem) <= mem && capacity == old(capacity) + count * base
    {
      hide LinkedAt, Mirrors;
      var full := capacity - position == 0;
      var tmp := LastNode();
      ghost var n, before := |nodes|, capacity;
      CapacityIs();
      var first := AppendNodes(tmp, count);
      assert nodes[n - 1] == tmp;
      NextOfLast(n);
      GrowthIs(n, count, before);
      if full {
        cur := first;
      }
    }

    /** Appends nodes while fewer than `need` bytes are free, as far as the rounding goes. */
    method AddCapacity(need: nat)
      requires Valid()
      modifies this`capacity, this`cur, this`nodes, this`mem, this`owner, nodes
      ensures Valid() && old(nodes) <= nodes && (forall i :: |old(nodes)| <= i < |nodes| ==> fresh(nodes[i]))
      ensures forall a :: a in owner ==> a in old(owner) || fresh(a)
      ensures old(mem) <= mem && capacity == old(capacity) + NodesFor(base, old(capacity) - position, need) * base
    {
      if need == 0 { return; }
      var free := capacity - position;
      if free >= need { return; }
      var count := NodeCount(base, free, need);
      SomeNode(base, need);
      Grow(count);
    }

    lemma CapacityIs()
      requires Linked()
      ensures capacity == |nodes| * base
    {
      StartOf(|nodes| - 1);
      assert |nodes| * base == (|nodes| - 1) * base + base;
    }

    lemma GrowthIs(n: nat, count: nat, before: nat)
      requires Linked() && |nodes| == n + count && before == n * base
      ensures capacity == before + count * base
    {
      CapacityIs();
      Distribute(n, count, base);
    }

    lemma NextOfLast(n: nat)
      requires Linked() && 0 < n <= |nodes|
      ensures n < |nodes| ==> nodes[n].start == nodes[n - 1].start + base && nodes[n].start < capacity
      ensures n == |nodes| ==> nodes[n - 1].start + base == capacity
    {
      assert LinkedAt(n - 1);
      if n < |nodes| {
        var i := Inside(nodes[n]);
      }
    }

    /** What writing `bytes` at the old position does to position, size and memory. */
    twostate predicate Written(bytes: seq<byte>)
      reads this`position, this`size, this`mem
    {
      && position == old(position) + |bytes| && size == Max(old(size), position)
      && Pasted(old(mem), old(position), bytes, mem)
    }

    method Write(buf: seq<byte>) returns (r: Result<()>)
      requires Valid()
      modifies Repr()
      ensures !r.OutOfRange?
      ensures r.NullNode? <==> !Fits(base, old(capacity - position), |buf|)
      ensures r.Ok? ==> Valid() && Written(buf)
      ensures r.Ok? ==> capacity == old(capacity) + NodesFor(base, old(capacity - position), |buf|) * base
      ensures fresh(Repr() - old(Repr()))
    {
      hide Shape, Fits, NodesFor, Overwrite, Pasted;
      CursorFacts();
      CapacityExactly(base, capacity - position, |buf|);
      NoRequest(base, capacity - position);
      if |buf| == 0 {
        PastedNothing(mem, position, mem);
        return Ok(());
      }
      SomeNode(base, |buf|);
      AddCapacity(|buf|);
      CursorFacts();
      assert capacity - position == FreeAfter(base, old(capacity - position), |buf|);
      ghost var grown := mem;
      var finished := WriteLoop(buf);
      if !finished { return NullNode; }
      PastedWritten(old(mem), grown, old(position), buf);
      if position > size { size := position; }
      return Ok(());
    }

    /** A cursor with its buffer; what the copying loops need to know about the list. */
    ghost predicate Ready(n: Node?, p: nat)
      reads this`nodes, this`capacity, this`owner
    {
      && StandsAt(n, p) && p <= capacity
      && (n != null ==> n.data in owner && n.data.Length == base && n.start + base <= capacity)
    }

    lemma CursorReady(n: Node?, p: nat)
      requires Linked() && StandsAt(n, p)
      ensures Ready(n, p)
    {
      if n == null {
      } else {
        var i := Inside(n);
      }
    }

    /** What a valid array says about its sizes and what can be read from it. */
    lemma Bounds()
      requires Valid()
      ensures base > 0 && |mem| == capacity && position <= size <= capacity
      ensures Readable() == mem[position..size] && Room() == capacity - size
    {
      CursorFacts();
    }

    /** What a valid array says about its cursor. */
    lemma CursorFacts()
      requires Valid()
      ensures base > 0 && Ready(cur, position) && |mem| == capacity
      ensures if cur != null then position % base == position - cur.start else position % base == 0
    {
      Offsets(cur, position);
      CursorReady(cur, position);
    }

    /** One memcpy at the cursor and the carry to the next node. */
    method PutChunk(npos: nat, buf: seq<byte>, bpos: nat, len: nat)
      requires Shape() && cur != null && Ready(cur, position) && npos == position - cur.start
      requires npos + len <= base && bpos + len <= |buf|
      modifies this`position, this`cur, this`mem, cur.data
      ensures Shape() && position == old(position) + len && Ready(cur, position)
      ensures position <= |old(mem)| && mem == Overwrite(old(mem), old(position), buf[bpos..bpos + len])
      ensures npos + len == base && cur != null ==> cur.start == position
    {
      hide LinkedAt, Listed, Contains, Overwrite;
      NextStands(cur);
      WriteChunk(cur, cur.data, npos, buf, bpos, len);
      position := position + len;
      if cur.data.Length == npos + len { cur := cur.next; }
      CursorReady(cur, position);
    }

    /** The copying loop; false when it runs off the last node. */
    method WriteLoop(buf: seq<byte>) returns (finished: bool)
      requires Valid() && position < capacity && |buf| > 0
      modifies this`position, this`cur, this`mem, owner.Keys
      ensures finished <==> old(position) + |buf| <= capacity
      ensures finished ==> Shape() && position == old(position) + |buf| && StandsAt(cur, position)
      ensures finished ==> mem == Overwrite(old(mem), old(position), buf)
    {
      hide LinkedAt, Listed, Mirrors, Overwrite;
      ghost var p, m := position, mem;
      CursorFacts();
      var npos := position % base;
      var ncap := cur.data.Length - npos;
      var rest: nat, bpos: nat := |buf|, 0;
      assert mem == Overwrite(m, p, buf[..0]) by { OverwriteNothing(m, p, buf[..0]); }
      while rest > 0
        invariant Shape() && bpos + rest == |buf| && position == p + bpos && Ready(cur, position) && |m| == capacity
        invariant mem == Overwrite(m, p, buf[..bpos])
        invariant rest > 0 ==> cur != null && npos == position - cur.start && ncap == base - npos
      {
        var len := if ncap >= rest then rest else ncap;
        PutChunk(npos, buf, bpos, len);
        OverwriteMore(m, p, buf, bpos, len);
        bpos, rest := bpos + len, rest - len;
        if rest > 0 {
          if cur == null { return false; }
          ncap, npos := cur.data.Length, 0;
        }
      }
      assert buf[..bpos] == buf;
      return true;
    }

    /** One memcpy out at the cursor and the carry to the next node. */
    method GetChunk(npos: nat, len: nat) returns (bytes: seq<byte>)
      requires Shape() && cur != null && Ready(cur, position) && npos == position - cur.start && npos + len <= base
      modifies this`position, this`cur
      ensures Shape() && position == old(position) + len && Ready(cur, position)
      ensures position <= |mem| && bytes == mem[old(position)..position]
      ensures npos + len == base && cur != null ==> cur.start == position
    {
      hide LinkedAt, Listed, Contains;
      NextStands(cur);
      bytes := ReadChunk(cur, npos, len);
      position := position + len;
      if cur.data.Length == npos + len { cur := cur.next; }
      CursorReady(cur, position);
    }

    /**
     Reads the next `len` bytes. Reading nothing is still a dereference of the cursor, which is null when the
     position is the end of the capacity.
     */
    method Read(len: nat) returns (r: Result<seq<byte>>)
      requires Valid()
      modifies this`position, this`cur
      ensures r.OutOfRange? <==> len > size - old(position)
      ensures r.NullNode? <==> len == 0 && old(position) == capacity
      ensures r.Ok? ==> Valid() && position == old(position) + len <= |mem| && r.value == mem[old(position)..position]
      ensures !r.Ok? ==> Valid() && position == old(position)
    {
      hide LinkedAt, Listed, Mirrors;
      CursorFacts();
      if len > size - position { return OutOfRange; }
      if cur == null { return NullNode; }
      var npos := position % base;
      var ncap := cur.data.Length - npos;
      ghost var p := position;
      var buf: seq<byte> := [];
      var rest: nat := len;
      while rest > 0
        invariant Shape() && |buf| + rest == len && position == p + |buf| && Ready(cur, position)
        invariant position <= |mem| && buf == mem[p..position]
        invariant rest > 0 ==> cur != null && npos == position - cur.start && ncap == base - npos
      {
        var n := if ncap >= rest then rest else ncap;
        ghost var q := position;
        var bytes := GetChunk(npos, n);
        SliceConcat(mem, p, q, position);
        buf, rest := buf + bytes, rest - n;
        if rest > 0 {
          ncap, npos := cur.data.Length, 0;
        }
      }
      return Ok(buf);
    }

    /**
     The const read: it starts in the cursor's node whatever position it is given, so it returns the bytes at that
     position when it lies in that node.
     */
    method PeekAt(len: nat, at: nat) returns (r: Result<seq<byte>>)
      requires Valid()
      ensures r.OutOfRange? <==> len > size - position
      ensures var start := position - position % base + at % base;
        && (r.NullNode? <==> len <= size - position && (position == capacity || start + len > capacity))
        && (r.Ok? ==> start + len <= |mem| && r.value == mem[start..start + len])
      ensures r.Ok? && at / base == position / base ==> at + len <= |mem| && r.value == mem[at..at + len]
    {
      hide Shape;
      CursorFacts();
      SameNode(position, at);
      if len > size - position { return OutOfRange; }
      if cur == null { return NullNode; }
      var npos := at % base;
      r := PeekFrom(cur, npos, len);
    }

    /** The copying loop of the const read, from offset `npos` of `first` on. */
    method PeekFrom(first: Node, npos: nat, len: nat) returns (r: Result<seq<byte>>)
      requires Shape() && first in nodes && npos < base == first.data.Length
      ensures !r.OutOfRange? && (r.NullNode? <==> first.start + npos + len > capacity)
      ensures r.Ok? ==> first.start + npos + len <= |mem|
      ensures r.Ok? ==> r.value == mem[first.start + npos..first.start + npos + len]
    {
      hide LinkedAt, Listed, Mirrors;
      NextStands(first);
      ghost var start := first.start + npos;
      CursorReady(first, start);
      var node: Node?, off: nat, ncap := first, npos, first.data.Length - npos;
      ghost var p := start;
      var buf: seq<byte> := [];
      var rest: nat := len;
      while rest > 0
        invariant |buf| + rest == len && p == start + |buf| && Ready(node, p)
        invariant p <= |mem| && buf == mem[start..p]
        invariant rest > 0 ==> node != null && off == p - node.start && ncap == base - off
      {
        var n := if ncap >= rest then rest else ncap;
        var bytes, next := PeekChunk(node, p, off, n);
        SliceConcat(mem, start, p, p + n);
        buf, rest, p, node := buf + bytes, rest - n, p + n, next;
        if rest > 0 {
          if node == null { return NullNode; }
          ncap, off := node.data.Length, 0;
        }
      }
      return Ok(buf);
    }

    lemma SameNode(p: nat, q: nat)
      requires base > 0
      ensures 0 <= p % base < base && 0 <= q % base < base && p >= p % base
      ensures q / base == p / base ==> q == p - p % base + q % base
    {
      assert p == (p / base) * base + p % base;
      assert q == (q / base) * base + q % base;
    }

    method PeekChunk(n: Node, ghost p: nat, npos: nat, len: nat) returns (bytes: seq<byte>, next: Node?)
      requires Shape() && Ready(n, p) && npos == p - n.start && npos + len <= base
      ensures Ready(next, p + len) && p + len <= |mem| && bytes == mem[p..p + len]
      ensures npos + len == base && next != null ==> next.start == p + len
    {
      NextStands(n);
      bytes := ReadChunk(n, npos, len);
      next := if n.data.Length == npos + len then n.next else n;
      CursorReady(next, p + len);
    }

    // ---- zero-copy buffers ----

    /** The stretch lies in one node and begins at position `at`. */
    ghost predicate Places(v: IoVec, at: nat)
      reads this`nodes, this`owner, this`capacity
    {
      && v.data in owner && owner[v.data] < |nodes| && nodes[owner[v.data]].data == v.data
      && 0 < v.len && v.off + v.len <= base == v.data.Length
      && at == nodes[owner[v.data]].start + v.off && at + v.len <= capacity
    }

    /** The stretches are positions `p` to `q`, in order and without a gap. */
    ghost predicate Covers(iovs: seq<IoVec>, p: nat, q: nat)
      reads this`nodes, this`owner, this`capacity
    {
      if iovs == [] then p == q else Places(iovs[0], p) && Covers(iovs[1..], p + iovs[0].len, q)
    }

    lemma CoversNothing(p: nat)
      ensures Covers([], p, p)
    {
    }

    lemma {:induction false} CoversMore(iovs: seq<IoVec>, v: IoVec, p: nat, q: nat)
      requires Covers(iovs, p, q) && Places(v, q)
      ensures Covers(iovs + [v], p, q + v.len)
      decreases |iovs|
    {
      hide Places;
      if iovs == [] {
        CoversNothing(q + v.len);
      } else {
        CoversMore(iovs[1..], v, p + iovs[0].len, q);
        assert (iovs + [v])[1..] == iovs[1..] + [v];
      }
    }

    lemma NodePlaces(n: Node, p: nat, len: nat)
      requires Linked() && n in nodes && n.start <= p && 0 < len && p - n.start + len <= base
      ensures Places(IoVec(n.data, p - n.start, len), p)
    {
      var i := Inside(n);
    }

    /** The loop of getReadBuffers and getWriteBuffers: stretches from the cursor on; false when the list ends first. */
    method Collect(len: nat) returns (iovs: seq<IoVec>, finished: bool)
      requires Valid() && position < capacity && len > 0
      ensures finished <==> position + len <= capacity
      ensures finished ==> Covers(iovs, position, position + len)
    {
      hide LinkedAt, Listed, Mirrors, Covers;
      CursorFacts();
      var npos := position % base;
      var ncap := cur.data.Length - npos;
      var node: Node? := cur;
      var left: nat := len;
      ghost var p: nat := position;
      iovs := [];
      CoversNothing(p);
      while left > 0
        invariant Covers(iovs, position, p) && p + left == position + len && p <= capacity
        invariant left > 0 ==> Ready(node, p) && node != null && npos == p - node.start && ncap == base - npos
      {
        var n := if ncap >= left then left else ncap;
        var v := IoVec(node.data, npos, n);
        NodePlaces(node, p, n);
        CoversMore(iovs, v, position, p);
        NextStands(node);
        iovs, left, p := iovs + [v], left - n, p + n;
        if left > 0 {
          node := node.next;
          CursorReady(node, p);
          if node == null { return iovs, false; }
          ncap, npos := node.data.Length, 0;
        }
      }
      return iovs, true;
    }

    /** The stretches of the next `len` readable bytes. */
    method GetReadBuffers(len: nat) returns (n: nat, iovs: seq<IoVec>)
      requires Valid()
      ensures n == Min(len, size - position) && position + n <= |mem|
      ensures Covers(iovs, position, position + n)
      ensures (forall v :: v in iovs ==> v.off + v.len <= v.data.Length) && Gather(iovs) == mem[position..position + n]
    {
      hide LinkedAt, Listed, Mirrors, Contains, Covers;
      CursorFacts();
      n := if len > size - position then size - position else len;
      if n == 0 {
        iovs := [];
        CoversNothing(position);
      } else {
        var finished;
        iovs, finished := Collect(n);
      }
      GatherIs(iovs, position, position + n);
    }

    /** The stretches of the next `len` bytes, after making room for them; position, size and old bytes stay. */
    method GetWriteBuffers(len: nat) returns (r: Result<nat>, iovs: seq<IoVec>)
      requires Valid()
      modifies this`capacity, this`cur, this`nodes, this`mem, this`owner, nodes
      ensures !r.OutOfRange?
      ensures r.NullNode? <==> !Fits(base, old(capacity - position), len)
      ensures r.Ok? ==> r.value == len && position + len <= capacity && Covers(iovs, position, position + len)
      ensures Valid() && old(mem) <= mem
      ensures capacity == old(capacity) + NodesFor(base, old(capacity) - position, len) * base
      ensures old(nodes) <= nodes && (forall i :: |old(nodes)| <= i < |nodes| ==> fresh(nodes[i]))
      ensures forall a :: a in owner ==> a in old(owner) || fresh(a)
    {
      hide Shape, Fits, NodesFor, Covers;
      CursorFacts();
      CapacityExactly(base, capacity - position, len);
      NoRequest(base, capacity - position);
      if len == 0 {
        CoversNothing(position);
        return Ok(0), [];
      }
      SomeNode(base, len);
      AddCapacity(len);
      CursorFacts();
      assert capacity - position == FreeAfter(base, old(capacity - position), len);
      var finished;
      iovs, finished := Collect(len);
      return if finished then Ok(len) else NullNode, iovs;
    }

    /** What the stretches hold is that part of the memory. */
    lemma {:induction false} GatherIs(iovs: seq<IoVec>, p: nat, q: nat)
      requires Shape() && Covers(iovs, p, q) && q <= capacity
      ensures forall v :: v in iovs ==> v.off + v.len <= v.data.Length
      ensures p <= q && q <= |mem| && Gather(iovs) == mem[p..q]
      decreases |iovs|
    {
      hide LinkedAt, Listed;
      if iovs != [] {
        var first := iovs[0];
        var next := p + first.len;
        assert iovs == [first] + iovs[1..];
        GatherIs(iovs[1..], next, q);
        assert Mirrors(nodes[owner[first.data]]);
        assert first.data[first.off..first.off + first.len] == mem[p..next];
        SliceConcat(mem, p, next, q);
      }
    }

    /** readv: the bytes go into the stretches one after the other. */
    method Scatter(iovs: seq<IoVec>, bytes: seq<byte>, ghost p: nat, ghost q: nat)
      requires Shape() && Covers(iovs, p, q) && p + |bytes| <= q <= capacity
      modifies this`mem, owner.Keys
      ensures Shape() && p + |bytes| <= |old(mem)| && mem == Overwrite(old(mem), p, bytes)
    {
      hide LinkedAt, Listed, Mirrors, Contains, Overwrite;
      ghost var m := mem;
      var i, got: nat := 0, 0;
      OverwriteNothing(m, p, bytes[..0]);
      while got < |bytes|
        invariant i <= |iovs| && got <= |bytes| && (got < |bytes| ==> Covers(iovs[i..], p + got, q))
        invariant Shape() && |m| == capacity && mem == Overwrite(m, p, bytes[..got])
        decreases |iovs| - i
      {
        var v := iovs[i];
        var len := if v.len >= |bytes| - got then |bytes| - got else v.len;
        assert Places(v, p + got);
        WriteChunk(nodes[owner[v.data]], v.data, v.off, bytes, got, len);
        OverwriteMore(m, p, bytes, got, len);
        assert iovs[i..][1..] == iovs[i + 1..];
        i, got := i + 1, got + len;
      }
      assert bytes[..got] == bytes;
    }

    /** The walk from the root to the node of position `v`. */
    method Seek(v: nat) returns (n: Node?)
      requires Shape() && v <= capacity
      ensures StandsAt(n, v)
    {
      var node := root;
      var left := v;
      ghost var i := 0;
      NthFacts(0);
      while left > node.data.Length
        invariant i < |nodes| && node == nodes[i] && node.data.Length == base && left == v - node.start
        invariant 0 <= left
        decreases |nodes| - i
      {
        NthFacts(i);
        left := left - node.data.Length;
        node := node.next;
        i := i + 1;
        NthFacts(i);
      }
      NthFacts(i);
      n := if left == node.data.Length then node.next else node;
    }

    lemma NthFacts(i: nat)
      requires Linked() && i < |nodes|
      ensures nodes[0] == root && root.start == 0 && nodes[i].data.Length == base && nodes[i].next == Nth(i + 1)
      ensures StandsAt(nodes[i].next, nodes[i].start + base)
      ensures nodes[i].next == null ==> capacity == nodes[i].start + base
      ensures nodes[i].next != null ==> nodes[i].next.start == nodes[i].start + base
    {
      assert LinkedAt(i);
      NextStands(nodes[i]);
    }

    /** Moves the position anywhere in the capacity; the size follows when it is passed. */
    method SetPosition(v: nat) returns (r: Result<()>)
      requires Valid()
      modifies this`position, this`size, this`cur
      ensures r == if v > capacity then OutOfRange else Ok(())
      ensures r.Ok? ==> Valid() && position == v && size == Max(old(size), v)
      ensures !r.Ok? ==> Valid() && position == old(position) && size == old(size)
    {
      hide LinkedAt, Listed, Mirrors;
      if v > capacity { return OutOfRange; }
      position := v;
      if position > size { size := position; }
      cur := Seek(v);
      return Ok(());
    }

    /** Only the first node is kept. */
    method Clear()
      requires Valid()
      modifies this, root
      ensures Valid() && position == size == 0 && capacity == base && root == old(root)
      ensures base <= |old(mem)| && mem == old(mem)[..base]
    {
      hide Contains;
      assert LinkedAt(0) && Mirrors(nodes[0]);
      CursorFacts();
      NextStands(root);
      ContainsCut(mem, root.data[..], base);
      position, size, capacity, cur := 0, 0, base, root;
      root.next := null;
      nodes, mem, owner := [root], mem[..base], map[root.data := 0];
      assert LinkedAt(0);
      Assembled();
    }
  }
}
