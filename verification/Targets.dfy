// Choosing an address by number: the walk over target blocks (pkg/runner/runner.go, PickIP,
// PickSubnetIP) and the uint32 table that replaces it (pkg/runner/fastsend.go).
module Targets {
  import opened PortTypes
  import opened Ipv4Text

  datatype Family = V4 | V6

  datatype Address = Address(family: Family, value: nat)

  // A network: its base address and prefix length.
  datatype Cidr = Cidr(family: Family, base: nat, ones: nat)

  function Bits(f: Family): nat {
    match f case V4 => 32 case V6 => 128
  }

  function Pow2(n: nat): (p: nat)
    ensures p > 0
  {
    if n == 0 then 1 else 2 * Pow2(n - 1)
  }

  ghost predicate IsCidr(c: Cidr) {
    && c.ones <= Bits(c.family)
    && c.base < Pow2(Bits(c.family))
    && c.base % Count(c) == 0
  }

  // mapcidr.AddressCountIpnet
  function Count(c: Cidr): (n: nat)
    ensures n > 0
  {
    if c.ones <= Bits(c.family) then Pow2(Bits(c.family) - c.ones) else 1
  }

  ghost predicate AreCidrs(targets: seq<Cidr>) {
    forall i :: 0 <= i < |targets| ==> IsCidr(targets[i])
  }

  ghost predicate InBlock(c: Cidr, a: Address) {
    a.family == c.family && c.base <= a.value < c.base + Count(c)
  }

  ghost predicate InTargets(targets: seq<Cidr>, a: Address) {
    exists i :: 0 <= i < |targets| && InBlock(targets[i], a)
  }

  ghost predicate Disjoint(targets: seq<Cidr>) {
    forall i, j, a :: 0 <= i < j < |targets| ==> !(InBlock(targets[i], a) && InBlock(targets[j], a))
  }

  function Total(targets: seq<Cidr>): nat {
    if targets == [] then 0 else Count(targets[0]) + Total(targets[1..])
  }

  // ---------- The simple form ----------

  function PickSubnetIP(c: Cidr, index: nat): Address {
    Address(c.family, c.base + index)
  }

  function Picked(targets: seq<Cidr>, index: nat): Option<Address> {
    if targets == [] then None
    else if index < Count(targets[0]) then Some(PickSubnetIP(targets[0], index))
    else Picked(targets[1..], index - Count(targets[0]))
  }

  lemma PickedStep(targets: seq<Cidr>, i: nat, index: nat)
    requires i < |targets|
    ensures Picked(targets[i..], index) ==
      if index < Count(targets[i]) then Some(PickSubnetIP(targets[i], index))
      else Picked(targets[i + 1..], index - Count(targets[i]))
  {
    assert targets[i..][1..] == targets[i + 1..];
  }

  method PickIP(targets: seq<Cidr>, index: nat) returns (ip: Option<Address>)
    ensures ip == Picked(targets, index)
  {
    var rest := index;
    for i := 0 to |targets|
      invariant rest >= 0 && Picked(targets, index) == Picked(targets[i..], rest)
    {
      var n := Count(targets[i]);
      PickedStep(targets, i, rest);
      if rest < n {
        return Some(PickSubnetIP(targets[i], rest));
      }
      rest := rest - n;
    }
    return None;
  }

  // The walk succeeds exactly below the total, and lands inside a target block.
  lemma {:induction false} PickedInTargets(targets: seq<Cidr>, index: nat)
    ensures Picked(targets, index).Some? <==> index < Total(targets)
    ensures index < Total(targets) ==> InTargets(targets, Picked(targets, index).value)
  {
    if targets != [] {
      if index < Count(targets[0]) {
        assert InBlock(targets[0], Picked(targets, index).value);
      } else {
        PickedInTargets(targets[1..], index - Count(targets[0]));
        if index < Total(targets) {
          var a := Picked(targets, index).value;
          var i :| 0 <= i < |targets[1..]| && InBlock(targets[1..][i], a);
          assert InBlock(targets[i + 1], a);
        }
      }
    }
  }

  ghost function IndexIn(targets: seq<Cidr>, a: Address): nat {
    if targets == [] then 0
    else if InBlock(targets[0], a) then a.value - targets[0].base
    else Count(targets[0]) + IndexIn(targets[1..], a)
  }

  // Every address of every block is reached.
  lemma {:induction false} PickedReaches(targets: seq<Cidr>, a: Address)
    requires InTargets(targets, a)
    ensures IndexIn(targets, a) < Total(targets)
    ensures Picked(targets, IndexIn(targets, a)) == Some(a)
  {
    var i :| 0 <= i < |targets| && InBlock(targets[i], a);
    if !InBlock(targets[0], a) {
      assert targets[1..][i - 1] == targets[i];
      PickedReaches(targets[1..], a);
    }
  }

  // Over disjoint blocks no address is reached twice: the number is recovered from the address.
  lemma {:induction false} PickedIsInjective(targets: seq<Cidr>, index: nat)
    requires Disjoint(targets) && index < Total(targets)
    ensures Picked(targets, index).Some? && IndexIn(targets, Picked(targets, index).value) == index
  {
    PickedInTargets(targets, index);
    if index >= Count(targets[0]) {
      var rest := targets[1..];
      assert forall i :: 0 <= i < |rest| ==> rest[i] == targets[i + 1];
      assert Disjoint(rest);
      PickedInTargets(rest, index - Count(targets[0]));
      PickedIsInjective(rest, index - Count(targets[0]));
      var a := Picked(targets, index).value;
      var i :| 0 <= i < |rest| && InBlock(rest[i], a);
      assert InBlock(targets[i + 1], a);
    }
  }

  // Numbers follow the blocks in their order and the addresses in each block upwards from its base.
  lemma {:induction false} PickedAt(targets: seq<Cidr>, i: nat, k: nat)
    requires i < |targets| && k < Count(targets[i])
    ensures Picked(targets, Total(targets[..i]) + k) == Some(Address(targets[i].family, targets[i].base + k))
  {
    if i > 0 {
      PickedAt(targets[1..], i - 1, k);
      assert targets[..i][1..] == targets[1..][..i - 1];
    }
  }

  lemma DivInBlock(base: nat, v: nat, n: nat)
    requires n > 0
    ensures v / n == base / n <==> base - base % n <= v < base - base % n + n
  {
    var q, r := base / n, v / n;
    assert base == q * n + base % n && v == r * n + v % n;
    if r < q { Scale(r + 1, q, n); }
    if q < r { Scale(q + 1, r, n); }
  }

  // A block is the set of addresses that share its leading bits.
  lemma BlockIsPrefix(c: Cidr, a: Address)
    requires IsCidr(c)
    ensures c.ones <= if c.family == V4 then 32 else 128
    ensures var size := Pow2((if c.family == V4 then 32 else 128) - c.ones);
      InBlock(c, a) <==> a.family == c.family && a.value / size == c.base / size
  {
    DivInBlock(c.base, a.value, Count(c));
  }

  // ---------- The fast form ----------

  datatype IndexEntry = IndexEntry(isV4: bool, baseIPv4: nat, count: nat)

  datatype TargetIndex = TargetIndex(entries: seq<IndexEntry>, total: nat)

  function EntryOf(c: Cidr): IndexEntry {
    IndexEntry(c.family == V4, if c.family == V4 then c.base % WORD else 0, Count(c))
  }

  ghost predicate Indexes(t: TargetIndex, targets: seq<Cidr>) {
    && |t.entries| == |targets| && t.total == Total(targets)
    && forall i :: 0 <= i < |targets| ==> t.entries[i] == EntryOf(targets[i])
  }

  lemma {:induction false} TotalSnoc(targets: seq<Cidr>, n: nat)
    requires n < |targets|
    ensures Total(targets[..n + 1]) == Total(targets[..n]) + Count(targets[n])
  {
    if n == 0 {
      assert targets[..1][1..] == [];
    } else {
      TotalSnoc(targets[1..], n - 1);
      assert targets[..n + 1][1..] == targets[1..][..n];
      assert targets[..n][1..] == targets[1..][..n - 1];
    }
  }

  method BuildTargetIndex(targets: seq<Cidr>) returns (idx: TargetIndex)
    ensures Indexes(idx, targets)
  {
    idx := TargetIndex([], 0);
    for i := 0 to |targets|
      invariant Indexes(idx, targets[..i])
    {
      var count := Count(targets[i]);
      var e := IndexEntry(false, 0, count);
      if targets[i].family == V4 {
        e := e.(isV4 := true, baseIPv4 := targets[i].base % WORD);
      }
      TotalSnoc(targets, i);
      idx := TargetIndex(idx.entries + [e], idx.total + count);
    }
    assert targets[..|targets|] == targets;
  }

  // The four bytes of a uint32, most significant first, and back.
  function BytesOf(v: nat): (ip: seq<int>)
    requires v < WORD
    ensures IsIPv4(ip)
  {
    [v / 0x100_0000 % 256, v / 0x1_0000 % 256, v / 0x100 % 256, v % 256]
  }

  function WordOf(ip: seq<int>): nat
    requires IsIPv4(ip)
  {
    ip[0] * 0x100_0000 + ip[1] * 0x1_0000 + ip[2] * 0x100 + ip[3]
  }

  lemma BytesRoundTrip(v: nat)
    requires v < WORD
    ensures WordOf(BytesOf(v)) == v
  {
    var a := v / 0x100;
    var b := v / 0x1_0000;
    var c := v / 0x100_0000;
    assert v == a * 256 + v % 256;
    assert b == a / 256 && a == b * 256 + a % 256;
    assert c == b / 256 && b == c * 256 + b % 256;
    assert c < 256;
  }

  lemma BlockInside(c: Cidr)
    requires IsCidr(c) && c.family == V4
    ensures c.base + Count(c) <= WORD
  {
    Pow2Of32();
    Pow2Splits(c.ones, 32 - c.ones);
    BlockEnd(c.base, Count(c), Pow2(c.ones));
  }

  // uint32 addition wraps; inside an aligned IPv4 block it never does.
  lemma NoWrap(c: Cidr, index: nat)
    requires IsCidr(c) && c.family == V4 && index < Count(c)
    ensures c.base + index < WORD
    ensures (c.base % WORD + index % WORD) % WORD == c.base + index
  {
    BlockInside(c);
    SmallSum(c.base, index);
  }

  lemma SmallSum(a: nat, b: nat)
    requires a + b < WORD
    ensures (a % WORD + b % WORD) % WORD == a + b
  {
    assert a % WORD == a && b % WORD == b;
  }

  lemma Pow2Of32()
    ensures Pow2(32) == WORD
  {
    assert Pow2(8) == 256;
    Pow2Splits(8, 8);
    Pow2Splits(16, 16);
  }

  lemma {:induction false} Pow2Splits(a: nat, b: nat)
    ensures Pow2(a + b) == Pow2(a) * Pow2(b)
  {
    if a > 0 {
      Pow2Splits(a - 1, b);
    }
  }

  lemma BlockEnd(base: nat, count: nat, blocks: nat)
    requires count > 0 && base % count == 0 && base < blocks * count
    ensures base + count <= blocks * count
  {
    var k := base / count;
    assert base == k * count;
    if k >= blocks {
      Scale(blocks, k, count);
    } else {
      Scale(k + 1, blocks, count);
    }
  }

  lemma Scale(a: nat, b: nat, count: nat)
    requires a <= b
    ensures a * count <= b * count
  {
  }

  method Render(e: IndexEntry, index: nat, ghost c: Cidr) returns (ip: seq<int>, ipStr: string)
    requires IsCidr(c) && c.family == V4 && e == EntryOf(c) && index < e.count
    ensures IsIPv4(ip) && WordOf(ip) == PickSubnetIP(c, index).value && ipStr == Dotted(ip)
  {
    NoWrap(c, index);
    var val := (e.baseIPv4 + index % WORD) % WORD;
    ip := BytesOf(val);
    BytesRoundTrip(val);
    ipStr := FormatIPv4(ip);
  }

  method PickIPv4(t: TargetIndex, index0: nat, ghost targets: seq<Cidr>)
    returns (ip: seq<int>, ipStr: string, isV4: bool)
    requires AreCidrs(targets) && Indexes(t, targets)
    ensures isV4 <==> Picked(targets, index0).Some? && Picked(targets, index0).value.family == V4
    ensures isV4 ==> IsIPv4(ip) && WordOf(ip) == Picked(targets, index0).value.value && ipStr == Dotted(ip)
    ensures isV4 ==> ((ip[0] * 256 + ip[1]) * 256 + ip[2]) * 256 + ip[3] == Picked(targets, index0).value.value
  {
    var index := index0;
    for i := 0 to |t.entries|
      invariant index >= 0 && Picked(targets, index0) == Picked(targets[i..], index)
    {
      var e := t.entries[i];
      PickedStep(targets, i, index);
      if index < e.count {
        if !e.isV4 {
          return [0, 0, 0, 0], "", false;
        }
        ip, ipStr := Render(e, index, targets[i]);
        return ip, ipStr, true;
      }
      index := index - e.count;
    }
    return [0, 0, 0, 0], "", false;
  }
}
