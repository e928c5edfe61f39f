/** Printing IPv6 addresses with the first run of zero groups compressed, and reading them back. */
module Ipv6 {
  import opened Numerals

  // ---- hexadecimal ----

  predicate IsHex(c: char) {
    '0' <= c <= '9' || 'a' <= c <= 'f'
  }

  function HexDigit(d: nat): (c: char)
    requires d < 16
    ensures IsHex(c) && DigitValue(c) == d
  {
    if d < 10 then '0' + d as char else 'a' + (d - 10) as char
  }

  function DigitValue(c: char): (d: nat) {
    if '0' <= c <= '9' then (c - '0') as nat else if 'a' <= c <= 'f' then (c - 'a') as nat + 10 else 0
  }

  /** std::hex without leading zeros. */
  function HexText(n: nat): (s: string)
    ensures s != "" && forall i :: 0 <= i < |s| ==> IsHex(s[i])
  {
    if n < 16 then [HexDigit(n)] else HexText(n / 16) + [HexDigit(n % 16)]
  }

  function HexValue(s: string): nat {
    if s == "" then 0 else 16 * HexValue(s[..|s| - 1]) + DigitValue(s[|s| - 1])
  }

  lemma {:induction false} HexBack(n: nat)
    ensures HexValue(HexText(n)) == n
    decreases n
  {
    if n >= 16 {
      HexBack(n / 16);
      var s := HexText(n);
      assert s[..|s| - 1] == HexText(n / 16);
    }
  }

  lemma HexPlain(n: nat)
    ensures forall i :: 0 <= i < |HexText(n)| ==> HexText(n)[i] != ':'
  {
  }

  // ---- groups between colons ----

  function Join(gs: seq<nat>): string {
    if gs == [] then "" else if |gs| == 1 then HexText(gs[0]) else HexText(gs[0]) + ":" + Join(gs[1..])
  }

  /** The first colon, or the end. */
  function Colon(s: string): (k: nat)
    ensures k <= |s| && (forall i :: 0 <= i < k ==> s[i] != ':') && (k < |s| ==> s[k] == ':')
  {
    if s == "" || s[0] == ':' then 0 else 1 + Colon(s[1..])
  }

  function Parse(s: string): seq<nat>
    decreases |s|
  {
    if s == "" then [] else
    var k := Colon(s);
    if k == |s| then [HexValue(s)] else [HexValue(s[..k])] + Parse(s[k + 1..])
  }

  predicate DoubleAt(s: string, i: nat) {
    i + 1 < |s| && s[i] == ':' && s[i + 1] == ':'
  }

  /** Where the first double colon is, or the end. */
  function Gap(s: string): (k: nat)
    ensures k <= |s| && (forall i :: 0 <= i < k ==> !DoubleAt(s, i)) && (k < |s| ==> DoubleAt(s, k))
  {
    if s == "" || DoubleAt(s, 0) then 0 else
    var k := 1 + Gap(s[1..]);
    assert forall i :: 0 < i < k ==> (DoubleAt(s, i) <==> DoubleAt(s[1..], i - 1));
    k
  }

  function Zeros(n: nat): (z: seq<nat>)
    ensures |z| == n && forall i :: 0 <= i < n ==> z[i] == 0
  {
    if n == 0 then [] else [0] + Zeros(n - 1)
  }

  /** The `n` groups of an address text: the double colon stands for as many zeros as are missing. */
  function Expand(s: string, n: nat): seq<nat> {
    var k := Gap(s);
    if k == |s| then Parse(s) else
    var left, right := Parse(s[..k]), Parse(s[k + 2..]);
    left + Zeros(if |left| + |right| <= n then n - |left| - |right| else 0) + right
  }

  // ---- the text that is printed ----

  /** The first zero group, or the end. */
  function FirstZero(gs: seq<nat>): (z: nat)
    ensures z <= |gs| && (forall i :: 0 <= i < z ==> gs[i] != 0) && (z < |gs| ==> gs[z] == 0)
  {
    if gs == [] || gs[0] == 0 then 0 else 1 + FirstZero(gs[1..])
  }

  /** The end of the run of zeros that begins at `z`. */
  function RunEnd(gs: seq<nat>, z: nat): (e: nat)
    requires z <= |gs|
    ensures z <= e <= |gs| && (forall i :: z <= i < e ==> gs[i] == 0) && (e < |gs| ==> gs[e] != 0)
    decreases |gs| - z
  {
    if z == |gs| || gs[z] != 0 then z else RunEnd(gs, z + 1)
  }

  function Text(gs: seq<nat>): string {
    var z := FirstZero(gs);
    if z == |gs| then Join(gs) else Join(gs[..z]) + "::" + Join(gs[RunEnd(gs, z)..])
  }

  lemma {:induction false} JoinMore(gs: seq<nat>, g: nat)
    requires gs != []
    ensures Join(gs + [g]) == Join(gs) + ":" + HexText(g)
    decreases |gs|
  {
    hide HexText;
    assert (gs + [g])[1..] == gs[1..] + [g];
    if |gs| == 1 {
      assert gs[1..] + [g] == [g];
    } else {
      JoinMore(gs[1..], g);
    }
  }

  /** The text up to a colon is one group. */
  lemma ParseFirst(h: string, rest: string)
    requires h != "" && forall i :: 0 <= i < |h| ==> h[i] != ':'
    ensures Parse(h) == [HexValue(h)] && Parse(h + ":" + rest) == [HexValue(h)] + Parse(rest)
  {
    hide HexValue;
    var s := h + ":" + rest;
    assert Colon(h) == |h|;
    assert s[|h|] == ':' && forall i :: 0 <= i < |h| ==> s[i] == h[i];
    assert Colon(s) == |h| && s[..|h|] == h && s[|h| + 1..] == rest;
  }

  lemma {:induction false} JoinParses(gs: seq<nat>)
    ensures Parse(Join(gs)) == gs
    decreases |gs|
  {
    hide HexText, HexValue, Parse;
    if gs == [] {
      ParseNothing();
    } else {
      HexBack(gs[0]);
      HexPlain(gs[0]);
      ParseFirst(HexText(gs[0]), Join(gs[1..]));
      JoinParses(gs[1..]);
      assert gs == [gs[0]] + gs[1..];
    }
  }

  lemma ParseNothing()
    ensures Parse("") == []
  {
  }

  /** Joined groups neither begin nor end with a colon, and colons stand alone. */
  lemma {:induction false} JoinIsPlain(gs: seq<nat>)
    ensures forall i :: 0 <= i ==> !DoubleAt(Join(gs), i)
    ensures Join(gs) != "" ==> Join(gs)[0] != ':' && Join(gs)[|Join(gs)| - 1] != ':'
    ensures Join(gs) == "" <==> gs == []
    decreases |gs|
  {
    if |gs| > 1 {
      var h, t := HexText(gs[0]), Join(gs[1..]);
      JoinIsPlain(gs[1..]);
      assert Join(gs) == h + ":" + t;
      forall i | 0 <= i ensures !DoubleAt(h + ":" + t, i) {
        if i > |h| && i + 1 < |h| + 1 + |t| {
          assert !DoubleAt(t, i - |h| - 1);
        }
      }
    }
  }

  /** The printed text has at most one double colon, and it stands where the first zeros are left out. */
  lemma OneGap(s: string, left: seq<nat>, right: seq<nat>, i: nat)
    requires s == Join(left) + "::" + Join(right)
    ensures DoubleAt(s, i) <==> i == |Join(left)|
  {
    hide Join;
    var a, b := Join(left), Join(right);
    JoinIsPlain(left);
    JoinIsPlain(right);
    if i + 1 < |a| {
      assert !DoubleAt(a, i);
    } else if i > |a| + 1 && i + 1 < |a| + 2 + |b| {
      assert !DoubleAt(b, i - |a| - 2);
    }
  }

  lemma AtMostOneGap(gs: seq<nat>, i: nat, j: nat)
    requires DoubleAt(Text(gs), i) && DoubleAt(Text(gs), j)
    ensures i == j
  {
    var z := FirstZero(gs);
    if z == |gs| {
      JoinIsPlain(gs);
    } else {
      OneGap(Text(gs), gs[..z], gs[RunEnd(gs, z)..], i);
      OneGap(Text(gs), gs[..z], gs[RunEnd(gs, z)..], j);
    }
  }

  /** Expanding gives back the groups: leading, inner, trailing and all zeros alike. */
  lemma ExpandsBack(gs: seq<nat>)
    ensures Expand(Text(gs), |gs|) == gs
  {
    hide Join, Parse;
    var s, z := Text(gs), FirstZero(gs);
    if z == |gs| {
      JoinIsPlain(gs);
      assert Gap(s) == |s|;
      JoinParses(gs);
    } else {
      var e := RunEnd(gs, z);
      var left, right := gs[..z], gs[e..];
      OneGap(s, left, right, |Join(left)|);
      OneGap(s, left, right, Gap(s));
      assert Gap(s) == |Join(left)|;
      assert s[..Gap(s)] == Join(left) && s[Gap(s) + 2..] == Join(right);
      JoinParses(left);
      JoinParses(right);
      assert gs == left + Zeros(e - z) + right;
    }
  }

  /**
   There is a double colon exactly if some group is zero. It stands for the first zeros, all that are in a row: before it
   every group is printed and none is zero, and behind it the next printed group is not.
   */
  lemma GapExactly(gs: seq<nat>)
    ensures (exists k: nat :: DoubleAt(Text(gs), k)) <==> 0 in gs
    ensures forall k: nat :: DoubleAt(Text(gs), k) ==>
      (var left, right := Parse(Text(gs)[..k]), Parse(Text(gs)[k + 2..]);
       && 0 !in left && (right != [] ==> right[0] != 0) && |left| + |right| < |gs|
       && gs == left + Zeros(|gs| - |left| - |right|) + right)
  {
    hide Join, Parse;
    var s, z := Text(gs), FirstZero(gs);
    if z == |gs| {
      JoinIsPlain(gs);
    } else {
      var e := RunEnd(gs, z);
      var left, right := gs[..z], gs[e..];
      assert gs[z] == 0 && z < e;
      OneGap(s, left, right, |Join(left)|);
      forall k: nat | DoubleAt(s, k) ensures k == |Join(left)| { OneGap(s, left, right, k); }
      assert s[..|Join(left)|] == Join(left) && s[|Join(left)| + 2..] == Join(right);
      JoinParses(left);
      JoinParses(right);
      assert gs == left + Zeros(e - z) + right;
    }
  }

  /** Lower-case digits, and no leading zero. */
  lemma {:induction false} HexShortest(n: nat)
    ensures forall i :: 0 <= i < |HexText(n)| ==> HexText(n)[i] in "0123456789abcdef"
    ensures n > 0 ==> HexText(n)[0] != '0'
    decreases n
  {
    if n >= 16 { HexShortest(n / 16); }
  }

  // ---- the printing loop ----

  /** IPv6Address::insert, for any number of groups. */
  method Insert(addr: array<nat>, port: nat) returns (os: string)
    requires addr.Length > 0
    ensures os == "[" + Text(addr[..]) + "]:" + Decimal(port)
  {
    hide Join, HexText, Decimal;
    var n := addr.Length;
    ghost var gs := addr[..];
    ghost var z := FirstZero(gs);
    ghost var e := RunEnd(gs, z);
    var text := "";
    JoinNothing();
    var usedZeros := false;
    for i := 0 to n
      invariant usedZeros <==> e < i && z < n
      invariant i <= z ==> text == Join(gs[..i])
      invariant z < i <= e ==> text == Join(gs[..z])
      invariant z < n && e < i ==> text == Join(gs[..z]) + "::" + Join(gs[e..i])
    {
      ghost var before := text;
      if addr[i] == 0 && !usedZeros { continue; }
      if i > 0 && addr[i - 1] == 0 && !usedZeros {
        text := text + ":";
        usedZeros := true;
      }
      if i > 0 { text := text + ":"; }
      text := text + HexText(addr[i]);
      Extends(gs, z, e, i);
      assert before + ":" + ":" + HexText(gs[i]) == before + "::" + HexText(gs[i]);
      if e < i {
        assert Join(gs[..z]) + "::" + Join(gs[e..i]) + ":" + HexText(gs[i])
            == Join(gs[..z]) + "::" + (Join(gs[e..i]) + ":" + HexText(gs[i]));
      }
    }
    if !usedZeros && addr[n - 1] == 0 { text := text + "::"; }
    assert gs[..n] == gs && gs[e..n] == gs[e..];
    JoinNothing();
    assert z < n && e == n ==> gs[e..] == [] && Join(gs[..z]) + "::" == Join(gs[..z]) + "::" + "";
    os := "[" + text + "]:" + Decimal(port);
  }

  lemma JoinNothing()
    ensures Join([]) == ""
  {
  }

  /** One more group behind those already joined. */
  lemma Extends(gs: seq<nat>, z: nat, e: nat, i: nat)
    requires z <= e <= |gs| && i < |gs|
    ensures Join(gs[..i + 1]) == if i == 0 then HexText(gs[i]) else Join(gs[..i]) + ":" + HexText(gs[i])
    ensures e <= i ==> Join(gs[e..i + 1]) == if i == e then HexText(gs[i]) else Join(gs[e..i]) + ":" + HexText(gs[i])
  {
    assert gs[..i + 1] == gs[..i] + [gs[i]];
    if i > 0 { JoinMore(gs[..i], gs[i]); }
    if e <= i {
      assert gs[e..i + 1] == gs[e..i] + [gs[i]];
      if e < i { JoinMore(gs[e..i], gs[i]); }
    }
  }
}
