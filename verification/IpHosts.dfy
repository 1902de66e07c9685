/**
 The in-place address increment and the subnet enumerator that hands out the two tunnel addresses.
 Addresses are byte strings of any length, most significant byte first; a prefix length counts leading bits.
 */
module IpHosts {
  import opened Arith
  import opened Basics

  /** The big-endian value of an address. */
  function Value(b: seq<byte>): nat {
    if b == [] then 0 else 256 * Value(b[..|b| - 1]) + b[|b| - 1]
  }

  lemma {:induction false} ValueBound(b: seq<byte>)
    ensures Value(b) < Pow(2, 8 * |b|)
  {
    if b != [] {
      ValueBound(b[..|b| - 1]);
      Pow2Byte(|b| - 1);
    }
  }

  lemma Pow2Byte(n: nat)
    ensures Pow(2, 8 * (n + 1)) == 256 * Pow(2, 8 * n)
  {
    Pow2By256(8 * n);
  }

  lemma {:induction false} ValueInjective(a: seq<byte>, b: seq<byte>)
    requires |a| == |b| && Value(a) == Value(b)
    ensures a == b
  {
    if a != [] {
      var n := |a| - 1;
      assert Value(a) == 256 * Value(a[..n]) + a[n] && Value(b) == 256 * Value(b[..n]) + b[n];
      ValueInjective(a[..n], b[..n]);
      assert a == a[..n] + [a[n]] && b == b[..n] + [b[n]];
    }
  }

  // ----- ipinc -----

  function NextByte(b: byte): byte {
    var x: int := b;
    (x + 1) % 256
  }

  /** Add one to the last byte; on a carry, go on with the bytes before it. */
  function Inc(s: seq<byte>): (r: seq<byte>)
    ensures |r| == |s|
  {
    if s == [] then []
    else
      var n, last := |s| - 1, NextByte(s[|s| - 1]);
      if last > 0 then s[..n] + [last] else Inc(s[..n]) + [last]
  }

  lemma {:induction false} IncIsPlusOne(s: seq<byte>)
    ensures Value(Inc(s)) == if Value(s) + 1 == Pow(2, 8 * |s|) then 0 else Value(s) + 1
  {
    if s == [] {
    } else {
      var n, last := |s| - 1, NextByte(s[|s| - 1]);
      IncIsPlusOne(s[..n]);
      ValueBound(s[..n]);
      Pow2Byte(n);
      assert Inc(s)[..n] == if last > 0 then s[..n] else Inc(s[..n]);
      assert Inc(s)[n] == last;
      assert Value(Inc(s)) == 256 * Value(Inc(s)[..n]) + last;
      assert Value(s) == 256 * Value(s[..n]) + s[n];
    }
  }

  /** Where the carry stops: the bytes after j were all 255 and become 0, byte j goes up, and the rest stays. */
  lemma {:induction false} CarryStopsAt(s: seq<byte>, r: seq<byte>, j: nat)
    requires |r| == |s| && j < |s| && s[j] != 255
    requires forall i :: j < i < |s| ==> s[i] == 255 && r[i] == 0
    requires forall i :: 0 <= i < j ==> r[i] == s[i]
    requires r[j] == NextByte(s[j])
    ensures r == Inc(s)
    decreases |s|
  {
    var n := |s| - 1;
    assert r == r[..n] + [r[n]];
    if j < n {
      CarryStopsAt(s[..n], r[..n], j);
    } else {
      assert r[..n] == s[..n];
    }
  }

  lemma {:induction false} CarryRunsOut(s: seq<byte>, r: seq<byte>)
    requires |r| == |s|
    requires forall i :: 0 <= i < |s| ==> s[i] == 255 && r[i] == 0
    ensures r == Inc(s)
  {
    if s != [] {
      var n := |s| - 1;
      assert r == r[..n] + [r[n]];
      CarryRunsOut(s[..n], r[..n]);
    }
  }

  method IpInc(ip: array<byte>)
    modifies ip
    ensures ip[..] == Inc(old(ip[..]))
  {
    ghost var was := ip[..];
    var j := ip.Length - 1;
    while j >= 0
      invariant -1 <= j < ip.Length
      invariant forall i :: 0 <= i <= j ==> ip[i] == was[i]
      invariant forall i :: j < i < ip.Length ==> was[i] == 255 && ip[i] == 0
    {
      ip[j] := NextByte(ip[j]);
      if ip[j] > 0 {
        CarryStopsAt(was, ip[..], j);
        return;
      }
      j := j - 1;
    }
    CarryRunsOut(was, ip[..]);
  }

  // ----- masks -----

  /** How many leading bits of byte i a prefix of length p covers. */
  function KeepBits(p: nat, i: nat): nat {
    if p >= 8 * i + 8 then 8 else if p <= 8 * i then 0 else p - 8 * i
  }

  /** v rounded down to a multiple of d. */
  function RoundDown(v: nat, d: nat): (r: nat)
    requires d >= 1
    ensures r <= v < r + d
  {
    if v < d then 0 else d + RoundDown(v - d, d)
  }

  /** The multiple of d below v is unique. */
  lemma {:induction false} RoundDownUnique(v: nat, d: nat, q: nat)
    requires d >= 1 && q * d <= v < q * d + d
    ensures RoundDown(v, d) == q * d
  {
    if q == 0 {
    } else {
      Distribute(q - 1, 1, d);
      MulMonotone(0, q - 1, d);
      RoundDownUnique(v - d, d, q - 1);
    }
  }

  lemma {:induction false} RoundDownIsMultiple(v: nat, d: nat) returns (q: nat)
    requires d >= 1
    ensures RoundDown(v, d) == q * d
  {
    if v < d {
      q := 0;
    } else {
      q := RoundDownIsMultiple(v - d, d);
      Distribute(q, 1, d);
      q := q + 1;
    }
  }

  /** The byte with all but its first k bits cleared. */
  function MaskByte(b: byte, k: nat): byte
    requires k <= 8
  {
    RoundDown(b, Pow(2, 8 - k))
  }

  function Masked(ip: seq<byte>, p: nat): (r: seq<byte>)
    ensures |r| == |ip|
  {
    seq(|ip|, i requires 0 <= i < |ip| => MaskByte(ip[i], KeepBits(p, i)))
  }

  /** The membership test of a subnet, byte by byte under the mask. */
  predicate Contains(net: seq<byte>, ip: seq<byte>, p: nat) {
    |ip| == |net| && Masked(ip, p) == Masked(net, p)
  }

  function SubnetSize(n: nat, p: nat): nat
    requires p <= 8 * n
  {
    Pow(2, 8 * n - p)
  }

  lemma RoundDownShift(x: nat, b: byte, m: nat)
    requires m >= 1
    ensures RoundDown(256 * x + b, 256 * m) == 256 * RoundDown(x, m)
  {
    var q := RoundDownIsMultiple(x, m);
    assert q * (256 * m) == 256 * (q * m);
    RoundDownUnique(256 * x + b, 256 * m, q);
  }

  lemma RoundDownLowByte(x: nat, b: byte, c: nat, e: nat)
    requires e >= 1 && c * e == 256
    ensures RoundDown(256 * x + b, e) == 256 * x + RoundDown(b, e)
  {
    var q := RoundDownIsMultiple(b, e);
    assert c * x * e == c * e * x;
    Distribute(c * x, q, e);
    RoundDownUnique(256 * x + b, e, c * x + q);
  }

  lemma MaskByteEnds(b: byte)
    ensures MaskByte(b, 0) == 0 && MaskByte(b, 8) == b
  {
    Pow2By256(0);
    RoundDownUnique(b, 1, b);
  }

  /** Masking rounds the value down to a multiple of the subnet size. */
  lemma MaskedValue(ip: seq<byte>, p: nat)
    requires p <= 8 * |ip|
    ensures Value(Masked(ip, p)) == RoundDown(Value(ip), SubnetSize(|ip|, p))
  {
    var e := 8 * |ip| - p;
    HostBitsCleared(ip, p, e);
    assert SubnetSize(|ip|, p) == Pow(2, e);
  }

  lemma {:induction false} HostBitsCleared(ip: seq<byte>, p: nat, e: nat)
    requires p + e == 8 * |ip|
    ensures Value(Masked(ip, p)) == RoundDown(Value(ip), Pow(2, e))
  {
    if ip != [] {
      var front, b := ip[..|ip| - 1], ip[|ip| - 1];
      assert front + [b] == ip;
      if e >= 8 {
        HostBitsCleared(front, p, e - 8);
        MaskClearsLastByte(front, b, p, e - 8);
      } else {
        MaskKeepsFront(front, b, 8 - e);
      }
    }
  }

  lemma MaskClearsLastByte(front: seq<byte>, b: byte, p: nat, e: nat)
    requires p + e == 8 * |front| && Value(Masked(front, p)) == RoundDown(Value(front), Pow(2, e))
    ensures Value(Masked(front + [b], p)) == RoundDown(Value(front + [b]), Pow(2, e + 8))
  {
    LastCleared(front, b, p);
    ValueSnoc(Masked(front, p), 0);
    ValueSnoc(front, b);
    BiggerBlock(Value(front), b, e);
  }

  lemma LastCleared(front: seq<byte>, b: byte, p: nat)
    requires p <= 8 * |front|
    ensures Masked(front + [b], p) == Masked(front, p) + [0]
  {
    MaskByteEnds(b);
    assert KeepBits(p, |front|) == 0;
    var all := Masked(front + [b], p);
    assert all[..|front|] == Masked(front, p);
    assert all[|front|] == 0;
    assert all == all[..|front|] + [all[|front|]];
  }

  lemma BiggerBlock(x: nat, b: byte, e: nat)
    ensures RoundDown(256 * x + b, Pow(2, e + 8)) == 256 * RoundDown(x, Pow(2, e))
  {
    Pow2By256(e);
    RoundDownShift(x, b, Pow(2, e));
  }

  lemma MaskKeepsFront(front: seq<byte>, b: byte, k: nat)
    requires 0 < k <= 8
    ensures Value(Masked(front + [b], 8 * |front| + k)) == RoundDown(Value(front + [b]), Pow(2, 8 - k))
  {
    FrontKept(front, b, k);
    ValueSnoc(front, MaskByte(b, k));
    ValueSnoc(front, b);
    SmallerBlock(Value(front), b, k);
  }

  lemma SmallerBlock(x: nat, b: byte, k: nat)
    requires k <= 8
    ensures RoundDown(256 * x + b, Pow(2, 8 - k)) == 256 * x + MaskByte(b, k)
  {
    EightBits(k);
    RoundDownLowByte(x, b, Pow(2, k), Pow(2, 8 - k));
  }

  lemma EightBits(k: nat)
    requires k <= 8
    ensures Pow(2, k) * Pow(2, 8 - k) == 256
  {
    Pow2Add(k, 8 - k);
    Pow2By256(0);
  }

  lemma FrontKept(front: seq<byte>, b: byte, k: nat)
    requires 0 < k <= 8
    ensures Masked(front + [b], 8 * |front| + k) == front + [MaskByte(b, k)]
  {
    forall i | 0 <= i < |front|
      ensures Masked(front + [b], 8 * |front| + k)[i] == front[i]
    {
      MaskByteEnds(front[i]);
    }
  }

  lemma ValueSnoc(front: seq<byte>, b: byte)
    ensures Value(front + [b]) == 256 * Value(front) + b
  {
    assert (front + [b])[..|front|] == front;
  }

  lemma Pow2By256(e: nat)
    ensures Pow(2, e + 8) == 256 * Pow(2, e)
  {
    assert Pow(2, e + 2) == 4 * Pow(2, e);
    assert Pow(2, e + 4) == 4 * Pow(2, e + 2);
    assert Pow(2, e + 6) == 4 * Pow(2, e + 4);
  }

  lemma {:induction false} Pow2Add(d: nat, e: nat)
    ensures Pow(2, d + e) == Pow(2, d) * Pow(2, e)
  {
    if e > 0 {
      Pow2Add(d, e - 1);
      assert Pow(2, d + e) == 2 * Pow(2, d + (e - 1));
    }
  }

  /** The byte-wise test is the same as lying in the same block of SubnetSize consecutive values. */
  lemma ContainsIff(net: seq<byte>, ip: seq<byte>, p: nat)
    requires |ip| == |net| && p <= 8 * |ip|
    ensures Contains(net, ip, p) <==>
      RoundDown(Value(ip), SubnetSize(|ip|, p)) == RoundDown(Value(net), SubnetSize(|ip|, p))
  {
    MaskedValue(ip, p);
    MaskedValue(net, p);
    if Value(Masked(ip, p)) == Value(Masked(net, p)) {
      ValueInjective(Masked(ip, p), Masked(net, p));
    }
  }

  /** With prefix length zero every address belongs, so a walk over the subnet would never leave it. */
  lemma ZeroPrefixNeverLeaves(net: seq<byte>, ip: seq<byte>)
    requires |ip| == |net|
    ensures Contains(net, ip, 0) && Contains(net, Inc(ip), 0)
  {
    MaskedZero(net);
    MaskedZero(ip);
    MaskedZero(Inc(ip));
  }

  lemma MaskedZero(x: seq<byte>)
    ensures Masked(x, 0) == seq(|x|, i => 0)
  {
    forall i | 0 <= i < |x|
      ensures Masked(x, 0)[i] == 0
    {
      MaskByteEnds(x[i]);
    }
  }

  // ----- IpHosts -----

  /** The address values IpHosts should return: the whole subnet, without its first and last once there are two. */
  function HostValues(ip: seq<byte>, p: nat): seq<nat>
    requires p <= 8 * |ip|
  {
    var net, size := Value(Masked(ip, p)), SubnetSize(|ip|, p);
    if size < 2 then [net] else seq(size - 2, k requires 0 <= k => net + 1 + k)
  }

  ghost predicate HaveValues(addrs: seq<seq<byte>>, n: nat, values: seq<nat>) {
    |addrs| == |values| && forall k :: 0 <= k < |addrs| ==> |addrs[k]| == n && Value(addrs[k]) == values[k]
  }

  /** Stepping past the k-th address of a subnet stays inside it exactly until the last one. */
  lemma WalkStep(net: seq<byte>, cur: seq<byte>, p: nat, k: nat)
    requires |cur| == |net| && 1 <= p <= 8 * |net|
    requires Masked(net, p) == net
    requires k < SubnetSize(|net|, p) && Value(cur) == Value(net) + k
    ensures Contains(net, Inc(cur), p) <==> k + 1 < SubnetSize(|net|, p)
    ensures k + 1 < SubnetSize(|net|, p) ==> Value(Inc(cur)) == Value(net) + k + 1
  {
    var size, v, w := SubnetSize(|net|, p), Value(net), Value(Inc(cur));
    MaskedValue(net, p);
    assert RoundDown(v, size) == v;
    IncIsPlusOne(cur);
    ValueBound(net);
    SpaceIsBlocks(|net|, p);
    assert w == if v + k + 1 == size * Pow(2, p) then 0 else v + k + 1;
    NextInBlock(size, Pow(2, p), v, k);
    ContainsIff(net, Inc(cur), p);
  }

  lemma SpaceIsBlocks(n: nat, p: nat)
    requires 1 <= p <= 8 * n
    ensures Pow(2, 8 * n) == SubnetSize(n, p) * Pow(2, p) && Pow(2, p) >= 2
  {
    Pow2Add(8 * n - p, p);
    assert Pow(2, p) == 2 * Pow(2, p - 1);
  }

  /**
   Among blocks of d values, adding one (wrapping at the very end) leaves the block that starts at v exactly after its
   last value.
   */
  lemma NextInBlock(d: nat, blocks: nat, v: nat, k: nat)
    requires d >= 1 && blocks >= 2 && k < d && v < d * blocks && RoundDown(v, d) == v
    ensures var w := if v + k + 1 == d * blocks then 0 else v + k + 1;
            && (RoundDown(w, d) == v <==> k + 1 < d)
            && (k + 1 < d ==> w == v + k + 1)
  {
    var q := RoundDownIsMultiple(v, d);
    if blocks <= q {
      MulMonotone(blocks, q, d);
      assert false;
    }
    MulMonotone(q + 1, blocks, d);
    Distribute(q, 1, d);
    MulMonotone(2, blocks, d);
    if k + 1 < d {
      RoundDownUnique(v + k + 1, d, q);
    } else {
      RoundDownUnique(v + d, d, q + 1);
    }
  }

  /** These are addresses of n bytes, with consecutive values from first on. */
  ghost predicate Consecutive(addrs: seq<seq<byte>>, n: nat, first: nat) {
    forall k :: 0 <= k < |addrs| ==> |addrs[k]| == n && Value(addrs[k]) == first + k
  }

  /** Dropping the network and broadcast addresses of the whole subnet leaves the values wanted. */
  lemma InnerAddresses(ips: seq<seq<byte>>, ip: seq<byte>, p: nat)
    requires p <= 8 * |ip| && |ips| == SubnetSize(|ip|, p) && Consecutive(ips, |ip|, Value(Masked(ip, p)))
    ensures HaveValues(if |ips| < 2 then ips else ips[1..|ips| - 1], |ip|, HostValues(ip, p))
  {
  }

  /** All strictly inner addresses of the subnet of ip, ascending; a single address for a full-length prefix. */
  method IpHosts(ip: seq<byte>, p: nat) returns (hosts: seq<seq<byte>>)
    requires 1 <= p <= 8 * |ip|
    ensures HaveValues(hosts, |ip|, HostValues(ip, p))
  {
    var net := Masked(ip, p);
    MaskedTwice(ip, p);
    ghost var size, first := SubnetSize(|ip|, p), Value(net);
    var cur := new byte[|ip|](i requires 0 <= i < |ip| => net[i]);
    assert cur[..] == net;
    var ips := [];
    while Contains(net, cur[..], p)
      invariant cur.Length == |net|
      invariant |ips| <= size
      invariant Contains(net, cur[..], p) <==> |ips| < size
      invariant |ips| < size ==> Value(cur[..]) == first + |ips|
      invariant Consecutive(ips, |ip|, first)
      decreases size - |ips|
    {
      WalkStep(net, cur[..], p, |ips|);
      ips := ips + [cur[..]];
      IpInc(cur);
    }
    InnerAddresses(ips, ip, p);
    if |ips| < 2 {
      hosts := ips;
    } else {
      hosts := ips[1..|ips| - 1];
    }
  }

  lemma MaskedTwice(ip: seq<byte>, p: nat)
    requires p <= 8 * |ip|
    ensures Masked(Masked(ip, p), p) == Masked(ip, p)
  {
    var d := SubnetSize(|ip|, p);
    MaskedValue(ip, p);
    MaskedValue(Masked(ip, p), p);
    var q := RoundDownIsMultiple(Value(ip), d);
    RoundDownUnique(q * d, d, q);
    ValueInjective(Masked(Masked(ip, p), p), Masked(ip, p));
  }

  /** Two ends configured with any two addresses of one /30 agree on one pair of distinct tunnel addresses in it. */
  lemma SameTunnelPair(ip: seq<byte>, other: seq<byte>)
    requires |ip| == |other| == 4 && Contains(ip, other, 30)
    ensures HostValues(ip, 30) == HostValues(other, 30)
    ensures var base := RoundDown(Value(ip), 4); HostValues(ip, 30) == [base + 1, base + 2]
    ensures RoundDown(Value(ip), 4) == RoundDown(Value(other), 4)
  {
    FourInAThirty();
    MaskedValue(ip, 30);
    MaskedValue(other, 30);
    PairAbove(ip);
    PairAbove(other);
  }

  lemma PairAbove(ip: seq<byte>)
    requires |ip| == 4
    ensures var net := Value(Masked(ip, 30)); HostValues(ip, 30) == [net + 1, net + 2]
  {
    FourInAThirty();
  }

  lemma FourInAThirty()
    ensures SubnetSize(4, 30) == 4
  {
    assert Pow(2, 2) == 4;
  }
}
