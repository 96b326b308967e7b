// The raw SYN sender (pkg/runner/fastsend.go): a reused 24-byte template in which each send
// patches the destination port, the sequence number and the checksum.
module SynSender {
  import opened PortTypes

  // ---------- The Internet checksum ----------

  function Fold(n: nat): (r: nat)
    ensures r < 0x1_0000
  {
    if n < 0x1_0000 then n else Fold(n / 0x1_0000 + n % 0x1_0000)
  }

  // Sum of the big-endian 16-bit words of an even number of bytes.
  function Sum16(b: seq<int>): int {
    if |b| < 2 then 0 else b[0] * 256 + b[1] + Sum16(b[2..])
  }

  ghost predicate AreBytes(b: seq<int>) {
    forall i :: 0 <= i < |b| ==> 0 <= b[i] < 256
  }

  // The words of the TCP pseudo-header for IPv4: both addresses, protocol 6, segment length.
  function PseudoSum(src: seq<int>, dst: seq<int>, length: nat): int
    requires |src| == 4 && |dst| == 4
  {
    Sum16(src) + Sum16(dst) + 6 + length
  }

  // What a receiver checks: header and pseudo-header fold to all ones.
  ghost predicate ChecksumHolds(src: seq<int>, dst: seq<int>, segment: seq<int>)
    requires |src| == 4 && |dst| == 4
  {
    var total := PseudoSum(src, dst, |segment|) + Sum16(segment);
    total >= 0 && Fold(total) == 0xFFFF
  }

  lemma {:induction false} Sum16Concat(a: seq<int>, b: seq<int>)
    requires |a| % 2 == 0
    ensures Sum16(a + b) == Sum16(a) + Sum16(b)
  {
    if a == [] {
      assert a + b == b;
    } else {
      Sum16Concat(a[2..], b);
      assert (a + b)[2..] == a[2..] + b;
    }
  }

  // The check is on the bytes of the pseudo-header of section 3.1 of RFC 9293, both addresses,
  // zero, protocol 6 and the length, followed by the segment.
  lemma ChecksumIsOverBytes(src: seq<int>, dst: seq<int>, segment: seq<int>)
    requires |src| == 4 && |dst| == 4 && AreBytes(src) && AreBytes(dst) && AreBytes(segment) && |segment| < 0x1_0000
    ensures var all := src + dst + [0, 6, |segment| / 256, |segment| % 256] + segment;
      ChecksumHolds(src, dst, segment) <==> Sum16(all) >= 0 && Fold(Sum16(all)) == 0xFFFF
  {
    var tail := [0, 6, |segment| / 256, |segment| % 256];
    Sum16Concat(src + dst + tail, segment);
    Sum16Concat(src + dst, tail);
    Sum16Concat(src, dst);
    var length := [|segment| / 256, |segment| % 256];
    Sum16Concat([0, 6], length);
    assert tail == [0, 6] + length && length[2..] == [] && [0, 6][2..] == [];
    assert Sum16(length) == |segment| && Sum16([0, 6]) == 6;
  }

  // Folding keeps the residue modulo 0xFFFF and never turns a positive number into zero.
  lemma {:induction false} FoldResidue(n: nat)
    ensures Fold(n) % 0xFFFF == n % 0xFFFF
    ensures Fold(n) == 0 <==> n == 0
  {
    if n >= 0x1_0000 {
      var next := n / 0x1_0000 + n % 0x1_0000;
      FoldResidue(next);
      assert n == next + (n / 0x1_0000) * 0xFFFF;
      ModAddMultiple(next, n / 0x1_0000);
    }
  }

  lemma ModAddMultiple(a: nat, k: nat)
    ensures (a + k * 0xFFFF) % 0xFFFF == a % 0xFFFF
  {
  }

  // Two folds of a 32-bit sum below 2^20 suffice: what the code does equals folding to the end.
  lemma TwoFolds(sum: nat)
    requires sum < 0x10_0000
    ensures var once := sum / 0x1_0000 + sum % 0x1_0000;
            (once + once / 0x1_0000) % 0x1_0000 == Fold(sum)
  {
    var once := sum / 0x1_0000 + sum % 0x1_0000;
    assert Fold(sum) == Fold(once);
    if once >= 0x1_0000 {
      var twice := once / 0x1_0000 + once % 0x1_0000;
      assert Fold(once) == Fold(twice) == twice;
    }
  }

  lemma SameResidue(a: nat, b: nat)
    requires a % 0xFFFF == b % 0xFFFF
    ensures (a + 0xFFFF - b) % 0xFFFF == 0
  {
    var k := a / 0xFFFF - b / 0xFFFF + 1;
    assert a + 0xFFFF - b == 0xFFFF * k;
  }

  // Adding the complement of the folded sum makes the whole fold to all ones.
  lemma ComplementCloses(sum: nat)
    requires sum > 0
    ensures Fold(sum + (0xFFFF - Fold(sum))) == 0xFFFF
  {
    FoldResidue(sum);
    SameResidue(sum, Fold(sum));
    MultipleFoldsToOnes(sum + (0xFFFF - Fold(sum)));
  }

  lemma MultipleFoldsToOnes(n: nat)
    requires n > 0 && n % 0xFFFF == 0
    ensures Fold(n) == 0xFFFF
  {
    FoldResidue(n);
  }

  // ---------- The packet ----------

  function Hi(v: nat): int { v / 256 % 256 }

  function Lo(v: nat): int { v % 256 }

  // Big-endian bytes of a list of 16-bit words.
  function Bytes(ws: seq<nat>): (b: seq<int>)
    ensures |b| == 2 * |ws| && AreBytes(b)
  {
    if ws == [] then [] else [Hi(ws[0]), Lo(ws[0])] + Bytes(ws[1..])
  }

  function SumUpTo(ws: seq<nat>, n: nat): nat
    requires n <= |ws|
  {
    if n == 0 then 0 else SumUpTo(ws, n - 1) + ws[n - 1]
  }

  ghost predicate AreWords(ws: seq<nat>) {
    forall i :: 0 <= i < |ws| ==> ws[i] < 0x1_0000
  }

  lemma {:induction false} SumTail(ws: seq<nat>, n: nat)
    requires n < |ws|
    ensures SumUpTo(ws, n + 1) == ws[0] + SumUpTo(ws[1..], n)
  {
    if n > 0 {
      SumTail(ws, n - 1);
    }
  }

  lemma Sum16Cons(x: int, y: int, rest: seq<int>)
    ensures Sum16([x, y] + rest) == x * 256 + y + Sum16(rest)
  {
    assert ([x, y] + rest)[2..] == rest;
  }

  lemma HiLo(v: nat)
    requires v < 0x1_0000
    ensures Hi(v) * 256 + Lo(v) == v
  {
  }

  lemma {:induction false} Sum16OfBytes(ws: seq<nat>)
    requires AreWords(ws)
    ensures Sum16(Bytes(ws)) == SumUpTo(ws, |ws|)
  {
    if ws != [] {
      Sum16OfBytes(ws[1..]);
      SumTail(ws, |ws| - 1);
      Sum16Cons(Hi(ws[0]), Lo(ws[0]), Bytes(ws[1..]));
      HiLo(ws[0]);
    }
  }

  // Overwriting two bytes of the packet overwrites one word.
  lemma {:induction false} PutWord(ws: seq<nat>, k: nat, v: nat)
    requires k < |ws|
    ensures Bytes(ws)[2 * k := Hi(v)][2 * k + 1 := Lo(v)] == Bytes(ws[k := v])
  {
    if k == 0 {
      assert ws[0 := v][1..] == ws[1..];
    } else {
      PutWord(ws[1..], k - 1, v);
      assert ws[k := v][1..] == ws[1..][k - 1 := v];
      assert Bytes(ws)[2..] == Bytes(ws[1..]);
    }
  }

  function Zeros(n: nat): (ws: seq<nat>)
    ensures |ws| == n && forall i :: 0 <= i < n ==> ws[i] == 0
  {
    seq(n, _ => 0)
  }

  lemma {:induction false} ZeroBytes(n: nat)
    ensures forall i :: 0 <= i < 2 * n ==> Bytes(Zeros(n))[i] == 0
  {
    if n > 0 {
      ZeroBytes(n - 1);
      assert Zeros(n)[1..] == Zeros(n - 1);
    }
  }

  // The SYN segment of section 3.1 of RFC 9293 in words: ports, sequence number, no
  // acknowledgment, data offset 6 with SYN alone, window 1024, checksum, no urgent pointer,
  // and one maximum-segment-size option of 1460.
  function SynWords(srcPort: nat, dstPort: nat, seqNo: nat, checksum: nat): (ws: seq<nat>)
    ensures |ws| == 12
  {
    [srcPort, dstPort, seqNo / 0x1_0000, seqNo % 0x1_0000, 0, 0,
     0x6002, 0x0400, checksum, 0, 0x0204, 0x05B4]
  }

  function Sum4(b: seq<int>): int
    requires |b| == 4
  {
    (b[0] * 256 + b[1]) + (b[2] * 256 + b[3])
  }

  function BaseSum(src: seq<int>, srcPort: nat): int
    requires |src| == 4
  {
    Sum4(src) + 6 + 24 + srcPort + 0x6002 + 0x0400 + 0x0204 + 0x05B4
  }

  lemma Sum16OfFour(b: seq<int>)
    requires |b| == 4 && AreBytes(b)
    ensures Sum16(b) == Sum4(b)
    ensures 0 <= Sum4(b) <= 2 * 0xFFFF
  {
    Sum16Cons(b[0], b[1], [b[2], b[3]]);
    Sum16Cons(b[2], b[3], []);
    assert b == [b[0], b[1]] + [b[2], b[3]] && [b[2], b[3]] == [b[2], b[3]] + [];
  }

  lemma Sum4Bound(b: seq<int>)
    requires |b| == 4 && AreBytes(b)
    ensures 0 <= Sum4(b) <= 2 * 0xFFFF
  {
  }

  lemma SumOfSyn(srcPort: nat, dstPort: nat, seqNo: nat, checksum: nat)
    requires srcPort < 0x1_0000 && dstPort < 0x1_0000 && seqNo < WORD && checksum < 0x1_0000
    ensures Sum16(Bytes(SynWords(srcPort, dstPort, seqNo, checksum)))
         == srcPort + dstPort + seqNo / 0x1_0000 + seqNo % 0x1_0000 + 0x6002 + 0x0400 + checksum + 0x0204 + 0x05B4
  {
    var ws := SynWords(srcPort, dstPort, seqNo, checksum);
    Sum16OfBytes(ws);
    assert SumUpTo(ws, 1) == srcPort;
    assert SumUpTo(ws, 2) == srcPort + dstPort;
    assert SumUpTo(ws, 4) == SumUpTo(ws, 2) + seqNo / 0x1_0000 + seqNo % 0x1_0000;
    assert SumUpTo(ws, 6) == SumUpTo(ws, 4);
    assert SumUpTo(ws, 7) == SumUpTo(ws, 6) + 0x6002;
    assert SumUpTo(ws, 8) == SumUpTo(ws, 6) + 0x6002 + 0x0400;
    assert SumUpTo(ws, 10) == SumUpTo(ws, 8) + checksum;
    assert SumUpTo(ws, 12) == SumUpTo(ws, 10) + 0x0204 + 0x05B4;
  }

  // What the code computes from its running base sum is a checksum the receiver accepts.
  lemma FastChecksum(src: seq<int>, dst: seq<int>, srcPort: nat, dstPort: nat, seqNo: nat, sum: nat, checksum: nat)
    requires |src| == 4 && AreBytes(src) && |dst| == 4 && AreBytes(dst)
    requires srcPort < 0x1_0000 && dstPort < 0x1_0000 && seqNo < WORD
    requires sum == BaseSum(src, srcPort) + Sum4(dst) + dstPort + seqNo / 0x1_0000 + seqNo % 0x1_0000
    requires var once := sum / 0x1_0000 + sum % 0x1_0000;
             checksum == 0xFFFF - (once + once / 0x1_0000) % 0x1_0000
    ensures sum < 0x10_0000
    ensures ChecksumHolds(src, dst, Bytes(SynWords(srcPort, dstPort, seqNo, checksum)))
  {
    Sum16OfFour(src);
    Sum16OfFour(dst);
    TwoFolds(sum);
    ComplementCloses(sum);
    SumOfSyn(srcPort, dstPort, seqNo, checksum);
  }

  // A packet handed to the socket.
  datatype Datagram = Datagram(dst: seq<int>, dstPort: nat, bytes: seq<int>)

  class SYNSender {
    const src: seq<int>
    const srcPort: nat
    var baseSum: nat
    var seqNo: nat
    const pkt: array<int>
    var wire: seq<Datagram>   // every datagram handed over so far, oldest first

    ghost var lastPort: nat
    ghost var lastSum: nat

    // The k-th send carries sequence number k modulo 2^32, whatever was sent before.
    ghost predicate Valid()
      reads this, pkt
    {
      && |src| == 4 && AreBytes(src) && srcPort < 0x1_0000
      && baseSum == BaseSum(src, srcPort)
      && seqNo == |wire| % WORD
      && pkt.Length == 24 && pkt[..] == Bytes(SynWords(srcPort, lastPort, seqNo, lastSum))
      && forall k :: 0 <= k < |wire| ==> IsGoodSyn(src, srcPort, (k + 1) % WORD, wire[k])
    }

    // newSYNSender once the route, source address and socket are known.
    constructor (src: seq<int>, srcPort: nat)
      requires |src| == 4 && AreBytes(src) && srcPort < 0x1_0000
      ensures Valid() && fresh(pkt) && wire == []
      ensures this.src == src && this.srcPort == srcPort
    {
      this.src, this.srcPort := src, srcPort;
      seqNo, wire, lastPort, lastSum := 0, [], 0, 0;
      Sum4Bound(src);
      baseSum := Sum4(src) + 6 + 24 + srcPort + 0x6002 + 0x0400 + 0x0204 + 0x05B4;
      var template := BuildTemplate(srcPort);
      pkt := template;
    }

    // Go's uint16(dstPort) conversion has already happened at the caller.
    method Send(dstIP: seq<int>, dstPort: nat)
      requires Valid() && |dstIP| == 4 && AreBytes(dstIP) && dstPort < 0x1_0000
      modifies this, pkt
      ensures Valid()
      ensures |wire| == |old(wire)| + 1 && wire[..|old(wire)|] == old(wire)
      ensures wire[|old(wire)|].dst == dstIP && wire[|old(wire)|].dstPort == dstPort
      ensures pkt[..] == wire[|old(wire)|].bytes
    {
      NextNumber(|wire|);
      var next := (seqNo + 1) % WORD;
      PatchHeader(pkt, srcPort, lastPort, seqNo, lastSum, dstPort, next);
      seqNo := next;
      var checksum := Checksum(src, srcPort, baseSum, dstIP, dstPort, seqNo);
      PatchChecksum(pkt, srcPort, dstPort, seqNo, lastSum, checksum);
      lastPort, lastSum := dstPort, checksum;

      var d := Datagram(dstIP, dstPort, pkt[..]);
      assert IsSynWith(srcPort, dstPort, seqNo, checksum, d.bytes);
      wire := wire + [d];
    }
  }

  method ZeroPacket(words: nat) returns (pkt: array<int>, ghost ws: seq<nat>)
    ensures fresh(pkt) && pkt.Length == 2 * words && |ws| == words
    ensures pkt[..] == Bytes(ws) && forall i :: 0 <= i < words ==> ws[i] == 0
  {
    pkt := new int[2 * words](_ => 0);
    ZeroBytes(words);
    ws := Zeros(words);
  }

  method BuildTemplate(srcPort: nat) returns (pkt: array<int>)
    requires srcPort < 0x1_0000
    ensures fresh(pkt) && pkt.Length == 24
    ensures pkt[..] == Bytes(SynWords(srcPort, 0, 0, 0))
  {
    ghost var ws: seq<nat>;
    pkt, ws := ZeroPacket(12);
    ghost var zeros := ws;
    ws := PutHeader(pkt, srcPort, ws);
    ws := PutTwo(pkt, 20, 2, 4, ws);
    ws := PutUint16(pkt, 22, 1460, ws);
    ZeroTemplate(zeros, srcPort);
  }

  method PutHeader(pkt: array<int>, srcPort: nat, ghost ws: seq<nat>) returns (ghost ws': seq<nat>)
    requires srcPort < 0x1_0000 && pkt.Length == 24 && |ws| == 12 && pkt[..] == Bytes(ws)
    modifies pkt
    ensures ws' == ws[0 := srcPort][6 := 0x6002][7 := 1024] && pkt[..] == Bytes(ws')
  {
    ws' := PutUint16(pkt, 0, srcPort, ws);
    ws' := PutTwo(pkt, 12, 0x60, 0x02, ws');
    ws' := PutUint16(pkt, 14, 1024, ws');
  }

  lemma ZeroTemplate(zeros: seq<nat>, srcPort: nat)
    requires |zeros| == 12 && forall i :: 0 <= i < 12 ==> zeros[i] == 0
    ensures zeros[0 := srcPort][6 := 0x6002][7 := 1024][10 := 0x0204][11 := 1460] == SynWords(srcPort, 0, 0, 0)
  {
  }

  // Send patches the destination port and the sequence number ...
  method PatchHeader(pkt: array<int>, srcPort: nat, ghost lastPort: nat, ghost lastSeq: nat, ghost lastSum: nat,
                     dstPort: nat, seqNo: nat)
    requires pkt.Length == 24 && pkt[..] == Bytes(SynWords(srcPort, lastPort, lastSeq, lastSum))
    requires dstPort < 0x1_0000 && seqNo < WORD
    modifies pkt
    ensures pkt[..] == Bytes(SynWords(srcPort, dstPort, seqNo, lastSum))
  {
    ghost var ws := SynWords(srcPort, lastPort, lastSeq, lastSum);
    ws := PutUint16(pkt, 2, dstPort, ws);
    ws := PutUint16(pkt, 4, seqNo / 0x1_0000, ws);
    ws := PutUint16(pkt, 6, seqNo % 0x1_0000, ws);
    assert ws == SynWords(srcPort, dstPort, seqNo, lastSum);
  }

  method PatchChecksum(pkt: array<int>, srcPort: nat, dstPort: nat, seqNo: nat, ghost lastSum: nat, checksum: nat)
    requires pkt.Length == 24 && pkt[..] == Bytes(SynWords(srcPort, dstPort, seqNo, lastSum))
    requires checksum < 0x1_0000
    modifies pkt
    ensures pkt[..] == Bytes(SynWords(srcPort, dstPort, seqNo, checksum))
  {
    ghost var ws := PutUint16(pkt, 16, checksum, SynWords(srcPort, dstPort, seqNo, lastSum));
    assert ws == SynWords(srcPort, dstPort, seqNo, checksum);
  }

  // ... and derives the checksum from the base sum in uint32 arithmetic.
  method Checksum(src: seq<int>, srcPort: nat, baseSum: nat, dstIP: seq<int>, dstPort: nat, seqNo: nat)
    returns (checksum: nat)
    requires |src| == 4 && AreBytes(src) && |dstIP| == 4 && AreBytes(dstIP)
    requires srcPort < 0x1_0000 && dstPort < 0x1_0000 && seqNo < WORD
    requires baseSum == BaseSum(src, srcPort)
    ensures checksum < 0x1_0000
    ensures ChecksumHolds(src, dstIP, Bytes(SynWords(srcPort, dstPort, seqNo, checksum)))
  {
    Sum4Bound(src);
    Sum4Bound(dstIP);
    assert seqNo / 0x1_0000 < 0x1_0000;
    var sum := (baseSum + Sum4(dstIP) + dstPort + seqNo / 0x1_0000 + seqNo % 0x1_0000) % WORD;
    ghost var whole := sum;
    assert whole < 0x10_0000;
    sum := sum / 0x1_0000 + sum % 0x1_0000;
    assert sum < 0x2_0000;
    sum := (sum + sum / 0x1_0000) % WORD;
    checksum := 0xFFFF - sum % 0x1_0000;
    FastChecksum(src, dstIP, srcPort, dstPort, seqNo, whole, checksum);
  }

  lemma NextNumber(n: nat)
    ensures (n % WORD + 1) % WORD == (n + 1) % WORD
  {
  }

  ghost predicate IsSynWith(srcPort: nat, dstPort: nat, seqNo: nat, checksum: nat, bytes: seq<int>) {
    checksum < 0x1_0000 && bytes == Bytes(SynWords(srcPort, dstPort, seqNo, checksum))
  }

  // A well-formed SYN to the asked destination whose checksum the receiver accepts.
  ghost predicate IsGoodSyn(src: seq<int>, srcPort: nat, seqNo: nat, d: Datagram)
    requires |src| == 4
  {
    && |d.dst| == 4 && |d.bytes| == 24
    && (exists checksum: nat :: IsSynWith(srcPort, d.dstPort, seqNo, checksum, d.bytes))
    && ChecksumHolds(src, d.dst, d.bytes)
  }

  method PutTwo(b: array<int>, at: nat, hi: nat, lo: nat, ghost ws: seq<nat>) returns (ghost ws': seq<nat>)
    requires at % 2 == 0 && at + 2 <= b.Length == 2 * |ws| && hi < 256 && lo < 256
    requires b[..] == Bytes(ws)
    modifies b
    ensures ws' == ws[at / 2 := hi * 256 + lo]
    ensures b[..] == Bytes(ws')
  {
    b[at] := hi;
    b[at + 1] := lo;
    PutWord(ws, at / 2, hi * 256 + lo);
    ws' := ws[at / 2 := hi * 256 + lo];
  }

  method PutUint16(b: array<int>, at: nat, v: nat, ghost ws: seq<nat>) returns (ghost ws': seq<nat>)
    requires at % 2 == 0 && at + 2 <= b.Length == 2 * |ws| && v < 0x1_0000
    requires b[..] == Bytes(ws)
    modifies b
    ensures ws' == ws[at / 2 := v]
    ensures b[..] == Bytes(ws')
  {
    ws' := PutTwo(b, at, v / 256, v % 256, ws);
  }

  // Any number of sends on one template: every datagram that leaves carries a checksum its
  // receiver accepts, and the destinations leave in the order asked for.
  method SendAll(sender: SYNSender, targets: seq<(seq<int>, nat)>)
    requires sender.Valid() && sender.wire == []
    requires forall k :: 0 <= k < |targets| ==> |targets[k].0| == 4 && AreBytes(targets[k].0) && targets[k].1 < 0x1_0000
    modifies sender, sender.pkt
    ensures |sender.wire| == |targets|
    ensures forall k :: 0 <= k < |targets| ==>
      && sender.wire[k].dst == targets[k].0 && sender.wire[k].dstPort == targets[k].1
      && |sender.src| == 4 && IsGoodSyn(sender.src, sender.srcPort, (k + 1) % WORD, sender.wire[k])
  {
    for k := 0 to |targets|
      invariant sender.Valid() && |sender.wire| == k
      invariant forall j :: 0 <= j < k ==> sender.wire[j].dst == targets[j].0 && sender.wire[j].dstPort == targets[j].1
    {
      ghost var before := sender.wire;
      sender.Send(targets[k].0, targets[k].1);
      assert forall j :: 0 <= j < k ==> sender.wire[j] == before[j] by {
        assert forall j :: 0 <= j < k ==> sender.wire[..k][j] == sender.wire[j];
      }
    }
  }

  // What a receiver reads back out of the segment: both ports, the sequence number, the
  // flags word and the checksum.
  lemma SegmentFields(srcPort: nat, dstPort: nat, seqNo: nat, checksum: nat, b: seq<int>)
    requires srcPort < 0x1_0000 && dstPort < 0x1_0000 && seqNo < WORD
    requires IsSynWith(srcPort, dstPort, seqNo, checksum, b)
    ensures |b| == 24
    ensures WordAt(b, 0) == srcPort && WordAt(b, 1) == dstPort
    ensures WordAt(b, 2) * 0x1_0000 + WordAt(b, 3) == seqNo
    ensures WordAt(b, 6) == 0x6002 && WordAt(b, 8) == checksum
    ensures WordAt(b, 4) == WordAt(b, 5) == WordAt(b, 9) == 0 && WordAt(b, 7) == 1024
    ensures WordAt(b, 10) == 2 * 256 + 4 && WordAt(b, 11) == 1460
  {
    var ws := SynWords(srcPort, dstPort, seqNo, checksum);
    WordReadsBack(ws, 0);
    WordReadsBack(ws, 1);
    WordReadsBack(ws, 2);
    WordReadsBack(ws, 3);
    RestReadsBack(ws);
  }

  lemma RestReadsBack(ws: seq<nat>)
    requires |ws| == 12 && forall k :: 4 <= k < 12 ==> ws[k] < 0x1_0000
    ensures forall k :: 4 <= k < 12 ==> WordAt(Bytes(ws), k) == ws[k]
  {
    forall k | 4 <= k < 12 ensures WordAt(Bytes(ws), k) == ws[k] {
      WordReadsBack(ws, k);
    }
  }

  function WordAt(b: seq<int>, k: nat): int
    requires 2 * k + 1 < |b|
  {
    b[2 * k] * 256 + b[2 * k + 1]
  }

  lemma {:induction false} WordReadsBack(ws: seq<nat>, k: nat)
    requires k < |ws| && ws[k] < 0x1_0000
    ensures WordAt(Bytes(ws), k) == ws[k]
  {
    if k > 0 {
      WordReadsBack(ws[1..], k - 1);
    }
  }
}
