// Port lists (pkg/runner/ports.go) and the popularity rank read from one of them
// (pkg/runner/smartscan.go, buildPopularityRank).
module Ports {
  import opened PortTypes
  import opened Text
  import opened Bags

  const MAX_PORT: int := 65535

  // What one comma-separated segment says.
  datatype Segment = Blank | Malformed | Range(lo: int, hi: int, protocol: Protocol)

  function ReadSegment(raw: string): (s: Segment)
    ensures s.Range? ==> 0 <= s.lo <= s.hi <= MAX_PORT
  {
    var trimmed := TrimSpace(raw);
    if trimmed == "" then Blank
    else if |trimmed| >= 2 && trimmed[..2] == "u:" then ReadNumbers(trimmed[2..], UDP)
    else ReadNumbers(trimmed, TCP)
  }

  function ReadNumbers(text: string, protocol: Protocol): (s: Segment)
    ensures s.Range? ==> 0 <= s.lo <= s.hi <= MAX_PORT
    ensures !s.Blank?
  {
    if '-' in text then
      var parts := Split(text, '-');
      FieldsArePlain(text, '-');
      if |parts| != 2 then Malformed
      else if Atoi(parts[0]).None? || Atoi(parts[1]).None? then Malformed
      else
        var p1, p2 := Atoi(parts[0]).value, Atoi(parts[1]).value;
        if p1 > p2 || p2 > MAX_PORT then Malformed else Range(p1, p2, protocol)
    else
      var n := Atoi(text);
      if n.None? || n.value > MAX_PORT then Malformed else Range(n.value, n.value, protocol)
  }

  lemma DecIsTrimmed(n: nat)
    ensures TrimSpace(Dec(n)) == Dec(n) && '-' !in Dec(n) && ':' !in Dec(n)
  {
    assert IsDigit(Dec(n)[0]) && IsDigit(Dec(n)[|Dec(n)| - 1]);
    DigitsHaveNo(Dec(n), '-');
    DigitsHaveNo(Dec(n), ':');
  }

  // A written number reads back as itself exactly when it is a port number.
  lemma SingleReadsBack(n: nat)
    requires n < INT_LIMIT
    ensures ReadSegment(Dec(n)) == if n <= MAX_PORT then Range(n, n, TCP) else Malformed
    ensures ReadNumbers(Dec(n), UDP) == if n <= MAX_PORT then Range(n, n, UDP) else Malformed
  {
    DecIsTrimmed(n);
    AtoiOfDec(n);
    assert |Dec(n)| >= 2 ==> Dec(n)[1] == Dec(n)[..2][1];
  }

  lemma RangeSplits(lo: nat, hi: nat)
    ensures var text := Dec(lo) + "-" + Dec(hi);
      '-' in text && Split(text, '-') == [Dec(lo), Dec(hi)]
  {
    DecIsTrimmed(lo);
    DecIsTrimmed(hi);
    SplitPlain(Dec(lo), '-');
    SplitField(Dec(lo), Dec(hi), '-');
    assert (Dec(lo) + "-" + Dec(hi))[|Dec(lo)|] == '-';
  }

  // A written range reads back exactly when it runs upwards and ends at most at 65535.
  lemma RangeReadsBack(lo: nat, hi: nat, protocol: Protocol)
    requires lo < INT_LIMIT && hi < INT_LIMIT
    ensures ReadNumbers(Dec(lo) + "-" + Dec(hi), protocol)
         == if lo <= hi <= MAX_PORT then Range(lo, hi, protocol) else Malformed
  {
    RangeSplits(lo, hi);
    AtoiOfDec(lo);
    AtoiOfDec(hi);
  }

  // More than one dash makes a segment malformed.
  lemma TwoDashesAreMalformed(a: string, b: string, c: string, protocol: Protocol)
    ensures ReadNumbers(a + ['-'] + b + ['-'] + c, protocol) == Malformed
  {
    SplitConcat(a, b, '-');
    SplitConcat(a + ['-'] + b, c, '-');
    assert (a + ['-'] + b + ['-'] + c)[|a|] == '-';
  }

  // A range with a bound missing, a negative number among them, is malformed.
  lemma MissingBoundIsMalformed(a: string, b: string, protocol: Protocol)
    requires '-' !in a && '-' !in b && (a == "" || b == "")
    ensures ReadNumbers(a + ['-'] + b, protocol) == Malformed
  {
    SplitPlain(a, '-');
    SplitField(a, b, '-');
    assert (a + ['-'] + b)[|a|] == '-';
    assert Atoi("").None?;
  }

  // A segment of blanks alone writes nothing.
  lemma BlankWritesNothing(s: string)
    requires forall i :: 0 <= i < |s| ==> IsSpace(s[i])
    ensures ReadSegment(s) == Blank && SegmentPorts(s) == Some([])
  {
    BlankTrims(s);
  }

  lemma {:induction false} BlankTrims(s: string)
    requires forall i :: 0 <= i < |s| ==> IsSpace(s[i])
    ensures TrimSpace(s) == ""
    decreases |s|
  {
    if s != "" { BlankTrims(s[1..]); }
  }

  // The prefix u: selects UDP; without it a segment is TCP. Surrounding blanks are ignored.
  lemma SegmentProtocol(text: string)
    requires text != "" && IsDigit(text[0]) && !IsSpace(text[|text| - 1])
    ensures ReadSegment(text) == ReadNumbers(text, TCP)
    ensures ReadSegment("u:" + text) == ReadNumbers(text, UDP)
    ensures ReadSegment(" " + text) == ReadSegment(text)
  {
    var udp, padded := "u:" + text, " " + text;
    assert udp[|udp| - 1] == text[|text| - 1] && udp[..2] == "u:" && udp[2..] == text;
    assert TrimSpace(udp) == udp && TrimSpace(text) == text;
    assert padded[0] == ' ' && padded[1..] == text;
    assert |text| >= 2 ==> text[..2][0] == text[0];
  }

  function RangePorts(lo: int, hi: int, protocol: Protocol): (ports: seq<Port>)
    requires lo <= hi + 1
    ensures |ports| == hi + 1 - lo
    ensures forall k :: 0 <= k < |ports| ==> ports[k] == Port(lo + k, protocol)
  {
    seq(hi + 1 - lo, k => Port(lo + k, protocol))
  }

  function SegmentPorts(raw: string): Option<seq<Port>> {
    match ReadSegment(raw)
    case Blank => Some([])
    case Malformed => None
    case Range(lo, hi, protocol) => Some(RangePorts(lo, hi, protocol))
  }

  function Join(a: Option<seq<Port>>, b: Option<seq<Port>>): Option<seq<Port>> {
    if a.None? || b.None? then None else Some(a.value + b.value)
  }

  lemma JoinAssociates(a: Option<seq<Port>>, b: Option<seq<Port>>, c: Option<seq<Port>>)
    ensures Join(Join(a, b), c) == Join(a, Join(b, c))
    ensures Join(a, Some([])) == a
  {
    if a.Some? {
      assert a.value + [] == a.value;
      if b.Some? && c.Some? {
        assert (a.value + b.value) + c.value == a.value + (b.value + c.value);
      }
    }
  }

  // The ports the segments write, in order and with repetitions; None if one is malformed.
  function Expand(segments: seq<string>): Option<seq<Port>> {
    if segments == [] then Some([])
    else Join(Expand(segments[..|segments| - 1]), SegmentPorts(segments[|segments| - 1]))
  }

  function Segments(ranges: seq<string>): seq<string> {
    if ranges == [] then [] else Segments(ranges[..|ranges| - 1]) + Split(ranges[|ranges| - 1], ',')
  }

  lemma ExpandSnoc(segments: seq<string>, last: string)
    ensures Expand(segments + [last]) == Join(Expand(segments), SegmentPorts(last))
  {
    assert (segments + [last])[..|segments|] == segments;
  }

  lemma {:induction false} ExpandConcat(a: seq<string>, b: seq<string>)
    ensures Expand(a + b) == Join(Expand(a), Expand(b))
  {
    if b == [] {
      assert a + b == a;
      JoinAssociates(Expand(a), None, None);
    } else {
      var front, last := b[..|b| - 1], b[|b| - 1];
      ExpandConcat(a, front);
      ExpandStep(a + front, Expand(a), front, last);
      ConcatSnoc(a, b, |b| - 1);
      TakeSnoc(b, |b| - 1);
    }
  }

  lemma ExpandStep(whole: seq<string>, before: Option<seq<Port>>, front: seq<string>, last: string)
    requires Expand(whole) == Join(before, Expand(front))
    ensures Expand(whole + [last]) == Join(before, Expand(front + [last]))
  {
    ExpandSnoc(whole, last);
    ExpandSnoc(front, last);
    JoinAssociates(before, Expand(front), SegmentPorts(last));
  }

  // A number is written when some segment is that number or a range around it.
  predicate Writes(segment: string, number: int) {
    var s := ReadSegment(segment);
    s.Range? && s.lo <= number <= s.hi
  }

  ghost predicate IsWritten(segments: seq<string>, number: int) {
    exists k :: 0 <= k < |segments| && Writes(segments[k], number)
  }

  ghost predicate HasNumber(ports: seq<Port>, number: int) {
    exists i :: 0 <= i < |ports| && ports[i].number == number
  }

  lemma NumberConcat(a: seq<Port>, b: seq<Port>, n: int)
    ensures HasNumber(a + b, n) <==> HasNumber(a, n) || HasNumber(b, n)
  {
    var all := a + b;
    if HasNumber(a, n) {
      var i :| 0 <= i < |a| && a[i].number == n;
      assert all[i].number == n;
    }
    if HasNumber(b, n) {
      var i :| 0 <= i < |b| && b[i].number == n;
      assert all[|a| + i].number == n;
    }
    if HasNumber(all, n) {
      var i :| 0 <= i < |all| && all[i].number == n;
      assert if i < |a| then a[i].number == n else b[i - |a|].number == n;
    }
  }

  lemma SegmentWrites(segment: string, n: int)
    requires SegmentPorts(segment).Some?
    ensures HasNumber(SegmentPorts(segment).value, n) <==> Writes(segment, n)
  {
    if Writes(segment, n) {
      assert SegmentPorts(segment).value[n - ReadSegment(segment).lo].number == n;
    }
  }

  lemma WrittenSnoc(segments: seq<string>, last: string, n: int)
    ensures IsWritten(segments + [last], n) <==> IsWritten(segments, n) || Writes(last, n)
  {
    var all := segments + [last];
    if IsWritten(segments, n) {
      var k :| 0 <= k < |segments| && Writes(segments[k], n);
      assert Writes(all[k], n);
    }
    assert all[|segments|] == last;
  }

  lemma {:induction false} ExpandWrites(segments: seq<string>, n: int)
    requires Expand(segments).Some?
    ensures HasNumber(Expand(segments).value, n) <==> IsWritten(segments, n)
    ensures HasNumber(Expand(segments).value, n) ==> 0 <= n <= MAX_PORT
  {
    if segments != [] {
      var front, last := segments[..|segments| - 1], segments[|segments| - 1];
      ExpandWrites(front, n);
      SegmentWrites(last, n);
      NumberConcat(Expand(front).value, SegmentPorts(last).value, n);
      WrittenSnoc(front, last, n);
      assert segments == front + [last];
    }
  }

  // ---------- Removing duplicates ----------

  // The first occurrences of a list's numbers, in order. The printed port is only its number,
  // so of "53" and "u:53" only the first survives.
  ghost function Firsts(ports: seq<Port>): seq<Port> {
    if ports == [] then []
    else
      var front, last := Firsts(ports[..|ports| - 1]), ports[|ports| - 1];
      if HasNumber(ports[..|ports| - 1], last.number) then front else front + [last]
  }

  ghost predicate IsFirstAt(ports: seq<Port>, i: nat, p: Port) {
    i < |ports| && ports[i] == p && !HasNumber(ports[..i], p.number)
  }

  // d lists exactly the first occurrences in ports, in the order of their positions.
  ghost predicate AreFirsts(ports: seq<Port>, d: seq<Port>, positions: seq<nat>) {
    && |positions| == |d|
    && (forall k :: 0 <= k < |d| ==> IsFirstAt(ports, positions[k], d[k]))
    && (forall j, k :: 0 <= j < k < |d| ==> positions[j] < positions[k])
    && (forall n :: HasNumber(ports, n) <==> HasNumber(d, n))
  }

  lemma {:induction false} FirstsInOrder(ports: seq<Port>) returns (positions: seq<nat>)
    ensures AreFirsts(ports, Firsts(ports), positions)
    ensures DistinctNumbers(Firsts(ports))
  {
    if ports == [] {
      positions := [];
    } else {
      var front, last := ports[..|ports| - 1], ports[|ports| - 1];
      var d := Firsts(front);
      var was := FirstsInOrder(front);
      assert ports == front + [last];
      forall n ensures HasNumber(ports, n) <==> HasNumber(front, n) || n == last.number {
        NumberSnoc(front, last, n);
      }
      forall n ensures HasNumber(d + [last], n) <==> HasNumber(d, n) || n == last.number {
        NumberSnoc(d, last, n);
      }
      forall k | 0 <= k < |d| ensures IsFirstAt(ports, was[k], d[k]) {
        assert IsFirstAt(front, was[k], d[k]);
        assert ports[..was[k]] == front[..was[k]];
      }
      if HasNumber(front, last.number) {
        positions := was;
      } else {
        positions := was + [|front|];
        assert ports[..|front|] == front;
        forall k | 0 <= k < |d| ensures d[k].number != last.number {
          assert HasNumber(d, d[k].number);
        }
      }
    }
  }

  lemma NumberSnoc(ports: seq<Port>, p: Port, n: int)
    ensures HasNumber(ports + [p], n) <==> HasNumber(ports, n) || n == p.number
  {
    NumberConcat(ports, [p], n);
    assert [p][0] == p;
  }

  // What parsePortsSlice yields.
  ghost function Parsed(ranges: seq<string>): Option<seq<Port>> {
    var all := Expand(Segments(ranges));
    if all.None? then None else Some(Firsts(all.value))
  }

  method ReadOne(segment: string, before: seq<Port>) returns (ports: Option<seq<Port>>)
    ensures ports == Join(Some(before), SegmentPorts(segment))
  {
    match ReadSegment(segment)
    case Blank =>
      assert before + [] == before;
      return Some(before);
    case Malformed =>
      return None;
    case Range(lo, hi, protocol) =>
      var all := AppendRange(before, lo, hi, protocol);
      return Some(all);
  }

  method AppendRange(before: seq<Port>, p1: int, p2: int, protocol: Protocol) returns (ports: seq<Port>)
    requires p1 <= p2
    ensures ports == before + RangePorts(p1, p2, protocol)
  {
    ports := before;
    for n := p1 to p2 + 1
      invariant ports == before + RangePorts(p1, n - 1, protocol)
    {
      ports := ports + [Port(n, protocol)];
    }
  }

  lemma {:induction false} MalformedSegment(segments: seq<string>, i: nat)
    requires i < |segments| && SegmentPorts(segments[i]).None?
    ensures Expand(segments).None?
    decreases |segments|
  {
    if i < |segments| - 1 {
      MalformedSegment(segments[..|segments| - 1], i);
    }
  }

  // The inner loop: one element of the list, split at commas.
  method ReadRange(r: string, before: seq<Port>) returns (ports: Option<seq<Port>>)
    ensures ports == Join(Some(before), Expand(Split(r, ',')))
  {
    var segments := Split(r, ',');
    ports := Some(before);
    JoinAssociates(ports, None, None);
    for i := 0 to |segments|
      invariant ports.Some? && ports == Join(Some(before), Expand(segments[..i]))
    {
      TakeSnoc(segments, i);
      ExpandSnoc(segments[..i], segments[i]);
      JoinAssociates(Some(before), Expand(segments[..i]), SegmentPorts(segments[i]));
      ports := ReadOne(segments[i], ports.value);
      if ports.None? {
        MalformedSegment(segments, i);
        return;
      }
    }
    assert segments[..|segments|] == segments;
  }

  method ParsePortsSlice(ranges: seq<string>) returns (result: Option<seq<Port>>)
    ensures result == Parsed(ranges)
  {
    var ports: seq<Port> := [];
    for i := 0 to |ranges|
      invariant Expand(Segments(ranges[..i])) == Some(ports)
    {
      assert ranges[..i + 1][..i] == ranges[..i];
      ExpandConcat(Segments(ranges[..i]), Split(ranges[i], ','));
      var next := ReadRange(ranges[i], ports);
      if next.None? {
        MalformedPrefix(ranges, i + 1);
        return None;
      }
      ports := next.value;
    }
    assert ranges[..|ranges|] == ranges;

    var deduped := Dedupe(ports);
    return Some(deduped);
  }

  method Dedupe(ports: seq<Port>) returns (deduped: seq<Port>)
    ensures deduped == Firsts(ports)
  {
    var seen: set<string> := {};
    deduped := [];
    for i := 0 to |ports|
      invariant deduped == Firsts(ports[..i])
      invariant forall n :: Show(n) in seen <==> HasNumber(ports[..i], n)
    {
      var p := ports[i];
      assert ports[..i + 1] == ports[..i] + [p];
      forall n ensures HasNumber(ports[..i + 1], n) <==> HasNumber(ports[..i], n) || n == p.number {
        NumberSnoc(ports[..i], p, n);
      }
      forall n ensures Show(n) == Show(p.number) <==> n == p.number {
        if Show(n) == Show(p.number) { ShowIsInjective(n, p.number); }
      }
      assert ports[..i + 1][..i] == ports[..i];
      if Show(p.number) !in seen {
        seen := seen + {Show(p.number)};
        deduped := deduped + [p];
      }
    }
    assert ports[..|ports|] == ports;
  }

  lemma {:induction false} MalformedPrefix(ranges: seq<string>, n: nat)
    requires n <= |ranges| && Expand(Segments(ranges[..n])).None?
    ensures Expand(Segments(ranges)).None?
    decreases |ranges|
  {
    if n == |ranges| {
      assert ranges[..n] == ranges;
    } else {
      var front := ranges[..|ranges| - 1];
      assert front[..n] == ranges[..n];
      MalformedPrefix(front, n);
      ExpandConcat(Segments(front), Split(ranges[|ranges| - 1], ','));
    }
  }

  // A successful parse: distinct numbers between 0 and 65535, the numbers written, at their
  // first occurrences.
  lemma ParsedMeaning(ranges: seq<string>) returns (positions: seq<nat>)
    requires Parsed(ranges).Some?
    ensures DistinctNumbers(Parsed(ranges).value)
    ensures forall p :: p in Parsed(ranges).value ==> 0 <= p.number <= MAX_PORT
    ensures forall n :: HasNumber(Parsed(ranges).value, n) <==> IsWritten(Segments(ranges), n)
    ensures AreFirsts(Expand(Segments(ranges)).value, Parsed(ranges).value, positions)
  {
    var all := Expand(Segments(ranges)).value;
    positions := FirstsInOrder(all);
    forall n ensures HasNumber(all, n) <==> IsWritten(Segments(ranges), n) {
      ExpandWrites(Segments(ranges), n);
    }
    forall p | p in Parsed(ranges).value ensures 0 <= p.number <= MAX_PORT {
      var k :| 0 <= k < |Parsed(ranges).value| && Parsed(ranges).value[k] == p;
      assert IsFirstAt(all, positions[k], p);
      ExpandWrites(Segments(ranges), p.number);
    }
  }

  // parsePortsList: splitting on commas beforehand changes nothing.
  method ParsePortsList(data: string) returns (result: Option<seq<Port>>)
    ensures result == Parsed([data])
  {
    result := ParsePortsSlice(Split(data, ','));
    PreSplit(data);
  }

  lemma PreSplit(data: string)
    ensures Segments(Split(data, ',')) == Segments([data]) == Split(data, ',')
  {
    FieldsArePlain(data, ',');
    PlainSegments(Split(data, ','));
    SegmentsOfOne(data);
  }

  lemma SegmentsOfOne(data: string)
    ensures Segments([data]) == Split(data, ',')
  {
    assert [data][..0] == [];
    assert Segments([]) == [];
    assert [] + Split(data, ',') == Split(data, ',');
  }

  lemma {:induction false} PlainSegments(fields: seq<string>)
    requires forall k :: 0 <= k < |fields| ==> ',' !in fields[k]
    ensures Segments(fields) == fields
  {
    if fields != [] {
      PlainSegments(fields[..|fields| - 1]);
      SplitPlain(fields[|fields| - 1], ',');
    }
  }

  // Some number is listed with two protocols.
  ghost predicate TwoProtocols(ports: seq<Port>) {
    exists p, q :: p in ports && q in ports && p.number == q.number && p.protocol != q.protocol
  }

  lemma OneOfEachNumber(d: seq<Port>, p: Port, q: Port)
    requires DistinctNumbers(d) && p in d && p.number == q.number
    ensures q in d ==> p == q
  {
    var i :| 0 <= i < |d| && d[i] == p;
  }

  // Removing duplicates keeps every port exactly when no number is listed with two protocols.
  lemma FirstsKeepAllIff(ports: seq<Port>)
    ensures (forall p :: p in ports ==> p in Firsts(ports)) <==> !TwoProtocols(ports)
  {
    var d := Firsts(ports);
    var positions := FirstsInOrder(ports);
    if TwoProtocols(ports) {
      var p, q :| p in ports && q in ports && p.number == q.number && p.protocol != q.protocol;
      if p in d { OneOfEachNumber(d, p, q); }
    } else {
      forall p | p in ports ensures p in d {
        assert HasNumber(ports, p.number);
        var k :| 0 <= k < |d| && d[k].number == p.number;
        assert IsFirstAt(ports, positions[k], d[k]);
        assert ports[positions[k]] in ports;
      }
    }
  }

  // A port list scans everything it writes exactly when it writes no number for both protocols.
  lemma ParsedKeepsAllIff(ranges: seq<string>)
    requires Parsed(ranges).Some?
    ensures var all := Expand(Segments(ranges)).value;
      (forall p :: p in all ==> p in Parsed(ranges).value) <==> !TwoProtocols(all)
  {
    FirstsKeepAllIff(Expand(Segments(ranges)).value);
  }

  lemma ExpandOne(segment: string)
    ensures Expand([segment]) == SegmentPorts(segment)
  {
    assert [segment][..0] == [];
    if SegmentPorts(segment).Some? {
      assert [] + SegmentPorts(segment).value == SegmentPorts(segment).value;
    }
  }

  lemma FirstsOfOne(p: Port)
    ensures Firsts([p]) == [p] && HasNumber([p], p.number)
  {
    assert [p][..0] == [] && [p][0].number == p.number;
  }

  // One number, alone or with the prefix for UDP.
  lemma NumberSegment(n: nat)
    requires n <= MAX_PORT
    ensures SegmentPorts(Dec(n)) == Some([Port(n, TCP)])
    ensures SegmentPorts("u:" + Dec(n)) == Some([Port(n, UDP)])
  {
    SingleReadsBack(n);
    SegmentProtocol(Dec(n));
    assert RangePorts(n, n, TCP) == [Port(n, TCP)] && RangePorts(n, n, UDP) == [Port(n, UDP)];
  }

  lemma ParsedNumber(n: nat)
    requires n <= MAX_PORT
    ensures Parsed([Dec(n)]) == Some([Port(n, TCP)])
  {
    DigitsHaveNo(Dec(n), ',');
    SplitPlain(Dec(n), ',');
    SegmentsOfOne(Dec(n));
    ExpandOne(Dec(n));
    NumberSegment(n);
    FirstsOfOne(Port(n, TCP));
  }

  lemma TwoFields(a: string, b: string)
    requires ',' !in a && ',' !in b
    ensures Segments([a + [','] + b]) == [a, b]
  {
    SplitPlain(a, ',');
    SplitField(a, b, ',');
    SegmentsOfOne(a + [','] + b);
  }

  // Of a number written for TCP and then for UDP both entries are read, but only the first is scanned.
  lemma SecondProtocolIsLost(n: nat)
    requires n <= MAX_PORT
    ensures var ranges := [Dec(n) + [','] + ("u:" + Dec(n))];
      && Expand(Segments(ranges)) == Some([Port(n, TCP), Port(n, UDP)])
      && Parsed(ranges) == Some([Port(n, TCP)])
  {
    DigitsHaveNo(Dec(n), ',');
    TwoFields(Dec(n), "u:" + Dec(n));
    ExpandOne(Dec(n));
    ExpandSnoc([Dec(n)], "u:" + Dec(n));
    NumberSegment(n);
    var one, both := [Port(n, TCP)], [Port(n, TCP), Port(n, UDP)];
    assert [Dec(n)] + ["u:" + Dec(n)] == [Dec(n), "u:" + Dec(n)] && one + [Port(n, UDP)] == both;
    assert both[..1] == one;
    FirstsOfOne(Port(n, TCP));
  }

  lemma SecondProtocolOf53()
    ensures Parsed(["53,u:53"]) == Some([Port(53, TCP)])
  {
    assert Dec(53) == "53";
    assert "53" + [','] + ("u:" + "53") == "53,u:53";
    SecondProtocolIsLost(53);
  }

  // ---------- Exclusion ----------

  function Without(ports: seq<Port>, excluded: seq<Port>): seq<Port> {
    if ports == [] then []
    else
      var front, last := Without(ports[..|ports| - 1], excluded), ports[|ports| - 1];
      if last in excluded then front else front + [last]
  }

  lemma {:induction false} WithoutMeaning(ports: seq<Port>, excluded: seq<Port>)
    ensures forall p :: p in Without(ports, excluded) <==> p in ports && p !in excluded
    ensures DistinctNumbers(ports) ==> DistinctNumbers(Without(ports, excluded))
  {
    if ports != [] {
      var front, last := ports[..|ports| - 1], ports[|ports| - 1];
      WithoutMeaning(front, excluded);
      assert ports == front + [last];
      if DistinctNumbers(ports) && last !in excluded {
        forall p | p in Without(front, excluded) ensures p.number != last.number {
          var i :| 0 <= i < |front| && front[i] == p;
          assert ports[i] == p && ports[|front|] == last;
        }
      }
    }
  }

  ghost function Filtered(excludePorts: seq<string>, ports: seq<Port>): Option<seq<Port>> {
    if excludePorts == [] then Some(ports)
    else if Parsed(excludePorts).None? then None
    else Some(Without(ports, Parsed(excludePorts).value))
  }

  method ExcludePorts(excludePorts: seq<string>, ports: seq<Port>) returns (result: Option<seq<Port>>)
    ensures result == Filtered(excludePorts, ports)
  {
    if |excludePorts| == 0 {
      return Some(ports);
    }
    var excluded := ParsePortsSlice(excludePorts);
    if excluded.None? {
      return None;
    }
    var filtered: seq<Port> := [];
    for i := 0 to |ports|
      invariant filtered == Without(ports[..i], excluded.value)
    {
      assert ports[..i + 1][..i] == ports[..i];
      var found := false;
      var j := 0;
      while j < |excluded.value|
        invariant 0 <= j <= |excluded.value| && (found <==> ports[i] in excluded.value[..j])
      {
        assert excluded.value[..j + 1] == excluded.value[..j] + [excluded.value[j]];
        if excluded.value[j].number == ports[i].number && excluded.value[j].protocol == ports[i].protocol {
          found := true;
          assert excluded.value[j] == ports[i];
          assert ports[i] in excluded.value;
          break;
        }
        j := j + 1;
      }
      assert found <==> ports[i] in excluded.value;
      if !found {
        filtered := filtered + [ports[i]];
      }
    }
    assert ports[..|ports|] == ports;
    return Some(filtered);
  }

  // ---------- ParsePorts ----------

  const FULL: string := "1-65535"

  // The built-in lists of the 100 and the 1000 most popular ports.
  datatype TopLists = TopLists(top100: string, top1000: string)

  class Options {
    var portsFile: seq<string>
    var topPorts: string
    var ports: string
    var excludePorts: seq<string>

    constructor (portsFile: seq<string>, topPorts: string, ports: string, excludePorts: seq<string>)
      ensures this.portsFile == portsFile && this.topPorts == topPorts
      ensures this.ports == ports && this.excludePorts == excludePorts
    {
      this.portsFile, this.topPorts, this.ports, this.excludePorts := portsFile, topPorts, ports, excludePorts;
    }
  }

  // The list -top-ports names; None when the option is invalid.
  function TopList(lists: TopLists, topPorts: string): Option<string> {
    var name := ToLower(topPorts);
    if name == "full" then Some(FULL)
    else if name == "100" then Some(lists.top100)
    else if name == "1000" then Some(lists.top1000)
    else None
  }

  // The option names the full range, the top 100 or the top 1000, in any case, and nothing else.
  lemma TopListMeaning(lists: TopLists, topPorts: string)
    ensures ToLower(topPorts) == "full" ==> TopList(lists, topPorts) == Some("1-65535")
    ensures ToLower(topPorts) == "100" ==> TopList(lists, topPorts) == Some(lists.top100)
    ensures ToLower(topPorts) == "1000" ==> TopList(lists, topPorts) == Some(lists.top1000)
    ensures TopList(lists, topPorts).Some? <==> ToLower(topPorts) in {"full", "100", "1000"}
  {
    assert "100" != "1000" by { assert |"100"| != |"1000"|; }
    assert "full"[0] != "100"[0] && "full"[0] != "1000"[0];
  }

  lemma LetterCaseIsIgnored(a: string, b: string)
    requires |a| == |b|
    requires forall i :: 0 <= i < |a| ==> a[i] == b[i] || ('A' <= a[i] <= 'Z' && b[i] as int == a[i] as int + 32)
    ensures ToLower(a) == ToLower(b)
  {
  }

  // One source of ports after exclusion.
  ghost function Source(excludePorts: seq<string>, ranges: seq<string>): Option<seq<Port>> {
    if Parsed(ranges).None? then None else Filtered(excludePorts, Parsed(ranges).value)
  }

  // Absent sources contribute nothing.
  ghost function FromFile(file: seq<string>, excludePorts: seq<string>): Option<seq<Port>> {
    if file == [] then Some([]) else Source(excludePorts, file)
  }

  ghost function FromTop(lists: TopLists, topPorts: string, excludePorts: seq<string>): Option<seq<Port>> {
    if topPorts == "" then Some([])
    else
      var top := TopList(lists, topPorts);
      if top.None? then None else Source(excludePorts, [top.value])
  }

  ghost function FromCli(ports: string, excludePorts: seq<string>): Option<seq<Port>> {
    if ports == "" then Some([]) else Source(excludePorts, [if ports == "-" then FULL else ports])
  }

  // What ParsePorts yields: the merged sources, or the 100 top ports when they are empty.
  ghost function Chosen(lists: TopLists, file: seq<string>, topPorts: string, ports: string, excludePorts: seq<string>)
    : Option<seq<Port>>
  {
    var merged := Join(Join(FromFile(file, excludePorts), FromCli(ports, excludePorts)), FromTop(lists, topPorts, excludePorts));
    if merged == Some([]) then Source(excludePorts, [lists.top100]) else merged
  }

  method ReadSlice(ranges: seq<string>, excludePorts: seq<string>) returns (ports: Option<seq<Port>>)
    ensures ports == Source(excludePorts, ranges)
  {
    ports := ParsePortsSlice(ranges);
    if ports.Some? {
      ports := ExcludePorts(excludePorts, ports.value);
    }
  }

  method ReadList(data: string, excludePorts: seq<string>) returns (ports: Option<seq<Port>>)
    ensures ports == Source(excludePorts, [data])
  {
    ports := ParsePortsList(data);
    if ports.Some? {
      ports := ExcludePorts(excludePorts, ports.value);
    }
  }

  method ReadFile(options: Options) returns (ports: Option<seq<Port>>)
    ensures ports == FromFile(options.portsFile, options.excludePorts)
  {
    if |options.portsFile| == 0 {
      return Some([]);
    }
    ports := ReadSlice(options.portsFile, options.excludePorts);
  }

  method ReadTop(options: Options, lists: TopLists) returns (ports: Option<seq<Port>>)
    ensures ports == FromTop(lists, options.topPorts, options.excludePorts)
  {
    if options.topPorts == "" {
      return Some([]);
    }
    var list := TopList(lists, options.topPorts);
    if list.None? {
      return None;
    }
    ports := ReadList(list.value, options.excludePorts);
  }

  // "-" is rewritten in the options before it is parsed.
  method ReadCli(options: Options) returns (ports: Option<seq<Port>>)
    modifies options`ports
    ensures ports == FromCli(old(options.ports), options.excludePorts)
    ensures options.ports == if old(options.ports) == "-" then FULL else old(options.ports)
  {
    if options.ports == "" {
      return Some([]);
    }
    if options.ports == "-" {
      options.ports := FULL;
    }
    ports := ReadList(options.ports, options.excludePorts);
  }

  method ParsePorts(options: Options, lists: TopLists) returns (result: Option<seq<Port>>)
    modifies options`ports
    ensures result == Chosen(lists, options.portsFile, options.topPorts, old(options.ports), options.excludePorts)
    ensures options.ports == old(options.ports) || (old(options.ports) == "-" && options.ports == FULL)
    ensures result.Some? ==> options.ports == if old(options.ports) == "-" then FULL else old(options.ports)
  {
    var portsFileMap := ReadFile(options);
    if portsFileMap.None? {
      return None;
    }
    var topPortsCLIMap := ReadTop(options, lists);
    if topPortsCLIMap.None? {
      return None;
    }
    var portsCLIMap := ReadCli(options);
    if portsCLIMap.None? {
      return None;
    }
    var merged := portsFileMap.value + portsCLIMap.value + topPortsCLIMap.value;
    if |merged| == 0 {
      result := ReadList(lists.top100, options.excludePorts);
      return;
    }
    return Some(merged);
  }

  // No port returned matches an exclusion entry in number and protocol, on every path, and
  // every port is a number from 0 to 65535.
  lemma ChosenRespectsExclusion(lists: TopLists, file: seq<string>, topPorts: string, ports: string,
                                excludePorts: seq<string>, p: Port)
    requires Chosen(lists, file, topPorts, ports, excludePorts).Some?
    requires p in Chosen(lists, file, topPorts, ports, excludePorts).value
    ensures 0 <= p.number <= MAX_PORT
    ensures excludePorts != [] ==> Parsed(excludePorts).Some? && p !in Parsed(excludePorts).value
  {
    SourceRespectsExclusion(excludePorts, file, p);
    SourceRespectsExclusion(excludePorts, [if ports == "-" then FULL else ports], p);
    SourceRespectsExclusion(excludePorts, [lists.top100], p);
    var top := TopList(lists, topPorts);
    if top.Some? {
      SourceRespectsExclusion(excludePorts, [top.value], p);
    }
  }

  lemma SourceRespectsExclusion(excludePorts: seq<string>, ranges: seq<string>, p: Port)
    ensures Source(excludePorts, ranges).Some? && p in Source(excludePorts, ranges).value ==>
      0 <= p.number <= MAX_PORT && (excludePorts != [] ==> Parsed(excludePorts).Some? && p !in Parsed(excludePorts).value)
  {
    if Source(excludePorts, ranges).Some? && p in Source(excludePorts, ranges).value {
      var positions := ParsedMeaning(ranges);
      if excludePorts != [] {
        WithoutMeaning(Parsed(ranges).value, Parsed(excludePorts).value);
      }
    }
  }

  // The list writes the port and the exclusion list does not.
  ghost predicate Lists(ranges: seq<string>, excludePorts: seq<string>, p: Port) {
    && Parsed(ranges).Some? && p in Parsed(ranges).value
    && (excludePorts != [] ==> Parsed(excludePorts).Some? && p !in Parsed(excludePorts).value)
  }

  lemma SourceLists(excludePorts: seq<string>, ranges: seq<string>, p: Port)
    requires Source(excludePorts, ranges).Some?
    ensures p in Source(excludePorts, ranges).value <==> Lists(ranges, excludePorts, p)
  {
    if excludePorts != [] {
      WithoutMeaning(Parsed(ranges).value, Parsed(excludePorts).value);
    }
  }

  // The ports file, the command line or the named top list writes the port, and the exclusion
  // list does not; a dash on the command line stands for 1-65535.
  ghost predicate IsRequested(lists: TopLists, file: seq<string>, topPorts: string, ports: string,
                              excludePorts: seq<string>, p: Port)
  {
    || (file != [] && Lists(file, excludePorts, p))
    || (ports != "" && Lists([if ports == "-" then "1-65535" else ports], excludePorts, p))
    || (topPorts != "" && TopList(lists, topPorts).Some? && Lists([TopList(lists, topPorts).value], excludePorts, p))
  }

  lemma MergedContents(lists: TopLists, file: seq<string>, topPorts: string, ports: string, excludePorts: seq<string>,
                       p: Port)
    requires FromFile(file, excludePorts).Some? && FromCli(ports, excludePorts).Some?
    requires FromTop(lists, topPorts, excludePorts).Some?
    ensures IsRequested(lists, file, topPorts, ports, excludePorts, p) <==>
      || p in FromFile(file, excludePorts).value
      || p in FromCli(ports, excludePorts).value
      || p in FromTop(lists, topPorts, excludePorts).value
  {
    if file != [] { SourceLists(excludePorts, file, p); }
    if ports != "" { SourceLists(excludePorts, [if ports == "-" then FULL else ports], p); }
    if topPorts != "" { SourceLists(excludePorts, [TopList(lists, topPorts).value], p); }
  }

  // The ports to scan are exactly those requested, and only when none is requested the top 100
  // that are not excluded.
  lemma ChosenContents(lists: TopLists, file: seq<string>, topPorts: string, ports: string, excludePorts: seq<string>,
                       p: Port)
    requires Chosen(lists, file, topPorts, ports, excludePorts).Some?
    ensures p in Chosen(lists, file, topPorts, ports, excludePorts).value <==>
      if exists q :: IsRequested(lists, file, topPorts, ports, excludePorts, q)
      then IsRequested(lists, file, topPorts, ports, excludePorts, p)
      else Lists([lists.top100], excludePorts, p)
  {
    var f, c, t := FromFile(file, excludePorts), FromCli(ports, excludePorts), FromTop(lists, topPorts, excludePorts);
    var all := f.value + c.value + t.value;
    if all == [] {
      forall q ensures !IsRequested(lists, file, topPorts, ports, excludePorts, q) {
        MergedContents(lists, file, topPorts, ports, excludePorts, q);
      }
      SourceLists(excludePorts, [lists.top100], p);
    } else {
      assert all[0] in all;
      MergedContents(lists, file, topPorts, ports, excludePorts, all[0]);
      MergedContents(lists, file, topPorts, ports, excludePorts, p);
    }
  }

  ghost predicate IsUnreadable(ranges: seq<string>, excludePorts: seq<string>) {
    Parsed(ranges).None? || (excludePorts != [] && Parsed(excludePorts).None?)
  }

  // Parsing the options fails exactly when a source that is present, the fallback list when it is
  // needed, or the exclusion list that applies to it is malformed, or no top list has the name.
  lemma ChosenFails(lists: TopLists, file: seq<string>, topPorts: string, ports: string, excludePorts: seq<string>)
    ensures Chosen(lists, file, topPorts, ports, excludePorts).None? <==>
      || (file != [] && IsUnreadable(file, excludePorts))
      || (ports != "" && IsUnreadable([if ports == "-" then "1-65535" else ports], excludePorts))
      || (topPorts != "" && (TopList(lists, topPorts).None? || IsUnreadable([TopList(lists, topPorts).value], excludePorts)))
      || ((forall q :: !IsRequested(lists, file, topPorts, ports, excludePorts, q)) && IsUnreadable([lists.top100], excludePorts))
  {
    var f, c, t := FromFile(file, excludePorts), FromCli(ports, excludePorts), FromTop(lists, topPorts, excludePorts);
    if f.Some? && c.Some? && t.Some? {
      var all := f.value + c.value + t.value;
      if all == [] {
        forall q ensures !IsRequested(lists, file, topPorts, ports, excludePorts, q) {
          MergedContents(lists, file, topPorts, ports, excludePorts, q);
        }
      } else {
        assert all[0] in all;
        MergedContents(lists, file, topPorts, ports, excludePorts, all[0]);
      }
    }
  }

  ghost predicate ShareNumber(a: seq<Port>, b: seq<Port>) {
    exists n :: HasNumber(a, n) && HasNumber(b, n)
  }

  lemma MergedDistinct(a: seq<Port>, b: seq<Port>)
    ensures DistinctNumbers(a + b) <==> DistinctNumbers(a) && DistinctNumbers(b) && !ShareNumber(a, b)
  {
    var all := a + b;
    if DistinctNumbers(all) {
      forall i, j | 0 <= i < j < |a| ensures a[i].number != a[j].number {
        assert all[i].number != all[j].number;
      }
      forall i, j | 0 <= i < j < |b| ensures b[i].number != b[j].number {
        assert all[|a| + i].number != all[|a| + j].number;
      }
    }
    if ShareNumber(a, b) {
      var n :| HasNumber(a, n) && HasNumber(b, n);
      var i :| 0 <= i < |a| && a[i].number == n;
      var j :| 0 <= j < |b| && b[j].number == n;
      assert all[i].number == all[|a| + j].number;
    } else if DistinctNumbers(a) && DistinctNumbers(b) {
      forall i, j | 0 <= i < j < |all| ensures all[i].number != all[j].number {
        if i < |a| <= j && all[i].number == all[j].number {
          assert a[i].number == all[i].number && b[j - |a|].number == all[j].number;
          assert HasNumber(a, all[i].number) && HasNumber(b, all[i].number);
        }
      }
    }
  }

  lemma SourceDistinct(excludePorts: seq<string>, ranges: seq<string>)
    requires Source(excludePorts, ranges).Some?
    ensures DistinctNumbers(Source(excludePorts, ranges).value)
  {
    var positions := ParsedMeaning(ranges);
    if excludePorts != [] {
      WithoutMeaning(Parsed(ranges).value, Parsed(excludePorts).value);
    }
  }

  // Merging does not remove duplicates: what ParsePorts yields has distinct numbers exactly when
  // no two of its three sources, each after exclusion, list the same number.
  lemma ChosenDistinctIff(lists: TopLists, file: seq<string>, topPorts: string, ports: string, excludePorts: seq<string>)
    requires Chosen(lists, file, topPorts, ports, excludePorts).Some?
    ensures var f, c, t :=
        FromFile(file, excludePorts), FromCli(ports, excludePorts), FromTop(lists, topPorts, excludePorts);
      && f.Some? && c.Some? && t.Some?
      && (DistinctNumbers(Chosen(lists, file, topPorts, ports, excludePorts).value) <==>
            !ShareNumber(f.value, c.value) && !ShareNumber(f.value, t.value) && !ShareNumber(c.value, t.value))
  {
    var f, c, t := FromFile(file, excludePorts), FromCli(ports, excludePorts), FromTop(lists, topPorts, excludePorts);
    if file != [] { SourceDistinct(excludePorts, file); }
    if ports != "" { SourceDistinct(excludePorts, [if ports == "-" then FULL else ports]); }
    if topPorts != "" { SourceDistinct(excludePorts, [TopList(lists, topPorts).value]); }
    MergedDistinct(f.value, c.value);
    MergedDistinct(f.value + c.value, t.value);
    forall n ensures HasNumber(f.value + c.value, n) <==> HasNumber(f.value, n) || HasNumber(c.value, n) {
      NumberConcat(f.value, c.value, n);
    }
    if f.value + c.value + t.value == [] { SourceDistinct(excludePorts, [lists.top100]); }
  }

  // Port 80 from a ports file and from the command line is scanned twice.
  lemma OverlappingOptionsRepeat(lists: TopLists)
    ensures Chosen(lists, ["80"], "", "80", []) == Some([Port(80, TCP), Port(80, TCP)])
  {
    assert Dec(80) == "80";
    ParsedNumber(80);
    assert [Port(80, TCP)] + [Port(80, TCP)] == [Port(80, TCP), Port(80, TCP)];
    JoinAssociates(Some([Port(80, TCP), Port(80, TCP)]), None, None);
  }

  // ---------- The popularity rank ----------

  // The numbers one segment of the list ranks; malformed segments rank nothing.
  function RankedBy(raw: string): seq<int> {
    var segment := TrimSpace(raw);
    if '-' in segment then
      var parts := Split(segment, '-');
      if |parts| < 2 || Atoi(parts[0]).None? || Atoi(parts[1]).None? then []
      else Interval(Atoi(parts[0]).value, Atoi(parts[1]).value)
    else if Atoi(segment).None? then [] else [Atoi(segment).value]
  }

  function Interval(start: int, end: int): seq<int> {
    if start > end then [] else seq(end + 1 - start, k requires 0 <= k => start + k)
  }

  function RankOrder(segments: seq<string>): seq<int> {
    if segments == [] then [] else RankOrder(segments[..|segments| - 1]) + RankedBy(segments[|segments| - 1])
  }

  // A number's rank is the position, from 1, of its last listing.
  ghost predicate IsRank(order: seq<int>, rank: map<int, int>) {
    && (forall p :: p in rank <==> p in order)
    && (forall p :: p in rank ==> 1 <= rank[p] <= |order| && order[rank[p] - 1] == p)
    && (forall p, i :: p in rank && rank[p] <= i < |order| ==> order[i] != p)
  }

  method BuildPopularityRank(list: string) returns (rank: map<int, int>)
    ensures IsRank(RankOrder(Split(list, ',')), rank)
  {
    rank := map[];
    var idx := 1;
    var segments := Split(list, ',');
    ghost var order: seq<int> := [];
    for i := 0 to |segments|
      invariant order == RankOrder(segments[..i])
      invariant IsRank(order, rank) && idx == |order| + 1
    {
      TakeSnoc(segments, i);
      RankOrderSnoc(segments[..i], segments[i]);
      var numbers := RankedBy(segments[i]);
      rank, idx := RankNumbers(numbers, order, rank, idx);
      order := order + numbers;
    }
    assert segments[..|segments|] == segments;
  }

  method RankNumbers(numbers: seq<int>, ghost before: seq<int>, rank0: map<int, int>, idx0: int)
    returns (rank: map<int, int>, idx: int)
    requires IsRank(before, rank0) && idx0 == |before| + 1
    ensures IsRank(before + numbers, rank) && idx == |before + numbers| + 1
  {
    rank, idx := rank0, idx0;
    ghost var order := before;
    assert before + numbers[..0] == before;
    for k := 0 to |numbers|
      invariant order == before + numbers[..k] && IsRank(order, rank) && idx == |order| + 1
    {
      RankSnoc(order, rank, numbers[k]);
      ConcatSnoc(before, numbers, k);
      order := order + [numbers[k]];
      rank := rank[numbers[k] := idx];
      idx := idx + 1;
    }
    assert numbers[..|numbers|] == numbers;
  }

  lemma RankSnoc(order: seq<int>, rank: map<int, int>, p: int)
    requires IsRank(order, rank)
    ensures IsRank(order + [p], rank[p := |order| + 1])
  {
    var next, all := rank[p := |order| + 1], order + [p];
    forall q | q in next ensures 1 <= next[q] <= |all| && all[next[q] - 1] == q {
      if q != p { assert q in rank; }
    }
    forall q, i | q in next && next[q] <= i < |all| ensures all[i] != q {
      if q != p { assert q in rank; }
    }
  }

  lemma NumberRanksItself(n: nat)
    requires n < INT_LIMIT
    ensures RankedBy(Dec(n)) == [n]
  {
    DecIsTrimmed(n);
    AtoiOfDec(n);
  }

  lemma RangeIsTrimmed(lo: nat, hi: nat)
    ensures TrimSpace(Dec(lo) + "-" + Dec(hi)) == Dec(lo) + "-" + Dec(hi)
  {
    var text := Dec(lo) + "-" + Dec(hi);
    assert IsDigit(text[0]) && text[|text| - 1] == Dec(hi)[|Dec(hi)| - 1];
    assert IsDigit(text[|text| - 1]);
  }

  lemma RankedByParts(segment: string, a: string, b: string, lo: int, hi: int)
    requires TrimSpace(segment) == segment && '-' in segment && Split(segment, '-') == [a, b]
    requires Atoi(a) == Some(lo) && Atoi(b) == Some(hi)
    ensures RankedBy(segment) == Interval(lo, hi)
  {
  }

  // A written range ranks its numbers upwards.
  lemma RangeRanksUpwards(lo: nat, hi: nat)
    requires lo < INT_LIMIT && hi < INT_LIMIT
    ensures var ranked := RankedBy(Dec(lo) + "-" + Dec(hi));
      && |ranked| == (if lo <= hi then hi + 1 - lo else 0)
      && forall k :: 0 <= k < |ranked| ==> ranked[k] == lo + k
  {
    RangeIsTrimmed(lo, hi);
    RangeSplits(lo, hi);
    AtoiOfDec(lo);
    AtoiOfDec(hi);
    RankedByParts(Dec(lo) + "-" + Dec(hi), Dec(lo), Dec(hi), lo, hi);
  }

  lemma RankOrderSnoc(segments: seq<string>, last: string)
    ensures RankOrder(segments + [last]) == RankOrder(segments) + RankedBy(last)
  {
    assert (segments + [last])[..|segments|] == segments;
  }

  lemma ConcatAssociates<A>(a: seq<A>, b: seq<A>, c: seq<A>)
    ensures (a + b) + c == a + (b + c)
  {
  }

  // Segments rank in the order they are written.
  lemma {:induction false} RankOrderConcat(a: seq<string>, b: seq<string>)
    ensures RankOrder(a + b) == RankOrder(a) + RankOrder(b)
  {
    if b == [] {
      assert a + b == a;
    } else {
      var front, last := b[..|b| - 1], b[|b| - 1];
      RankOrderConcat(a, front);
      RankOrderSnoc(a + front, last);
      RankOrderSnoc(front, last);
      ConcatAssociates(RankOrder(a), RankOrder(front), RankedBy(last));
      ConcatSnoc(a, b, |b| - 1);
      TakeSnoc(b, |b| - 1);
    }
  }

  // In a list without repetitions the rank is the position: priorities fall along the list.
  lemma RankIsPosition(order: seq<int>, rank: map<int, int>, i: nat)
    requires IsRank(order, rank) && Bags.Distinct(order) && i < |order|
    ensures order[i] in rank && rank[order[i]] == i + 1
  {
    var p := order[i];
    assert p in order;
    assert order[rank[p] - 1] == order[i];
  }
}
