// The hand-written IPv4 printer and parser (pkg/runner/fastsend.go) against the obvious
// definitions: four decimals joined by dots, and splitting at dots.
module Ipv4Text {
  import opened Text

  // A four-byte address.
  predicate IsIPv4(ip: seq<int>) {
    |ip| == 4 && forall i :: 0 <= i < 4 ==> 0 <= ip[i] < 256
  }

  function DottedUpTo(ip: seq<int>, n: nat): string
    requires IsIPv4(ip) && n <= 4
  {
    if n == 0 then ""
    else if n == 1 then Dec(ip[0])
    else DottedUpTo(ip, n - 1) + "." + Dec(ip[n - 1])
  }

  function Dotted(ip: seq<int>): string
    requires IsIPv4(ip)
  {
    DottedUpTo(ip, 4)
  }

  // What a string must be to be read: at most four fields of digits, each at most 255.
  ghost predicate Readable(s: string) {
    var fields := Split(s, '.');
    |fields| <= 4 && forall k :: 0 <= k < |fields| ==> AllDigits(fields[k]) && Value(fields[k]) <= 255
  }

  ghost predicate IsAddressText(s: string) {
    Readable(s) && |Split(s, '.')| == 4
  }

  ghost function Octets(s: string): (ip: seq<int>)
    requires Readable(s)
    ensures |ip| == |Split(s, '.')|
  {
    seq(|Split(s, '.')|, k requires 0 <= k < |Split(s, '.')| => Value(Split(s, '.')[k]))
  }

  lemma ReadableStep(s: string, c: char)
    requires Readable(s + [c])
    ensures Readable(s)
  {
    var front, fields := Split(s, '.'), Split(s + [c], '.');
    SplitSnoc(s, c, '.');
    var last := |front| - 1;
    forall k | 0 <= k < |front| ensures AllDigits(front[k]) && Value(front[k]) <= 255 {
      if c != '.' && k == last {
        assert fields[k] == front[k] + [c];
        ValueSnoc(front[k], c);
      } else {
        assert front[k] == fields[k];
      }
    }
  }

  // Once a prefix is unreadable, so is the whole string: the parser may stop early.
  lemma {:induction false} ReadablePrefix(s: string, n: nat)
    requires n <= |s| && Readable(s)
    ensures Readable(s[..n])
    decreases |s|
  {
    if n < |s| {
      var front := s[..|s| - 1];
      assert s == front + [s[|s| - 1]];
      ReadableStep(front, s[|s| - 1]);
      ReadablePrefix(front, n);
      assert front[..n] == s[..n];
    } else {
      assert s[..n] == s;
    }
  }

  // The parser's variables after reading p.
  ghost predicate Parsed(p: string, ip: seq<int>, dots: int, octet: int) {
    var fields := Split(p, '.');
    && Readable(p) && |ip| == 4
    && dots == |fields| - 1 && octet == Value(fields[dots])
    && forall k :: 0 <= k < dots ==> ip[k] == Value(fields[k])
  }

  lemma ParsedDigit(p: string, ip: seq<int>, dots: int, octet: int, c: char)
    requires Parsed(p, ip, dots, octet) && IsDigit(c)
    ensures var next := octet * 10 + DigitValue(c);
            if next > 255 then !Readable(p + [c]) else Parsed(p + [c], ip, dots, next)
  {
    SplitSnoc(p, c, '.');
    var last := Split(p, '.')[dots];
    assert Split(p + [c], '.')[dots] == last + [c];
    assert AllDigits(last + [c]);
    ValueSnoc(last, c);
  }

  lemma ParsedDot(p: string, ip: seq<int>, dots: int, octet: int)
    requires Parsed(p, ip, dots, octet)
    ensures if dots >= 3 then !Readable(p + ['.']) else Parsed(p + ['.'], ip[dots := octet], dots + 1, 0)
  {
    var front, fields := Split(p, '.'), Split(p + ['.'], '.');
    SplitSnoc(p, '.', '.');
    assert fields[dots + 1] == "";
    assert forall k :: 0 <= k <= dots ==> fields[k] == front[k];
  }

  lemma ParsedOther(p: string, c: char)
    requires !IsDigit(c) && c != '.'
    ensures !Readable(p + [c])
  {
    var front, fields := Split(p, '.'), Split(p + [c], '.');
    SplitSnoc(p, c, '.');
    var k := |front| - 1;
    assert fields[k] == front[k] + [c];
    assert fields[k][|front[k]|] == c;
  }

  lemma ParsedEnd(s: string, ip: seq<int>, dots: int, octet: int)
    requires Parsed(s, ip, dots, octet)
    ensures IsAddressText(s) <==> dots == 3
    ensures dots == 3 ==> IsIPv4(ip[3 := octet]) && ip[3 := octet] == Octets(s)
  {
  }

  method ParseIPv4Fast(s: string) returns (ip: seq<int>, ok: bool)
    ensures ok <==> IsAddressText(s)
    ensures ok ==> IsIPv4(ip) && ip == Octets(s)
    ensures var fields := Split(s, '.');
      && (ok <==> |fields| == 4 && forall k :: 0 <= k < 4 ==> AllDigits(fields[k]) && Value(fields[k]) <= 255)
      && (ok ==> forall k :: 0 <= k < 4 ==> ip[k] == Value(fields[k]))
  {
    ip := [0, 0, 0, 0];
    var octet, dots := 0, 0;
    var i := 0;
    while i < |s|
      invariant 0 <= i <= |s|
      invariant Parsed(s[..i], ip, dots, octet)
    {
      var c := s[i];
      assert s[..i + 1] == s[..i] + [c];
      if IsDigit(c) {
        ParsedDigit(s[..i], ip, dots, octet, c);
        octet := octet * 10 + DigitValue(c);
        if octet > 255 {
          NotReadable(s, i + 1);
          return ip, false;
        }
      } else if c == '.' {
        ParsedDot(s[..i], ip, dots, octet);
        if dots >= 3 {
          NotReadable(s, i + 1);
          return ip, false;
        }
        ip := ip[dots := octet];
        dots := dots + 1;
        octet := 0;
      } else {
        ParsedOther(s[..i], c);
        NotReadable(s, i + 1);
        return ip, false;
      }
      i := i + 1;
    }
    assert s[..i] == s;
    ParsedEnd(s, ip, dots, octet);
    if dots != 3 {
      return ip, false;
    }
    ip := ip[3 := octet];
    return ip, true;
  }

  lemma NotReadable(s: string, n: nat)
    requires n <= |s| && !Readable(s[..n])
    ensures !Readable(s)
  {
    if Readable(s) {
      ReadablePrefix(s, n);
    }
  }

  method FormatIPv4(ip: seq<int>) returns (text: string)
    requires IsIPv4(ip)
    ensures text == Dotted(ip) && |text| <= 15
    ensures Split(text, '.') == [Dec(ip[0]), Dec(ip[1]), Dec(ip[2]), Dec(ip[3])]
  {
    var buf := new char[15];
    var n := 0;
    for i := 0 to 4
      invariant 0 <= n <= buf.Length
      invariant if i == 0 then n == 0 else n <= 4 * i - 1
      invariant buf[..n] == DottedUpTo(ip, i)
    {
      ghost var before := buf[..n];
      if i > 0 {
        buf[n] := '.';
        n := n + 1;
        assert buf[..n] == before + ".";
      }
      n := WriteByte(buf, n, ip[i]);
      assert i == 0 ==> before + Dec(ip[i]) == Dec(ip[i]);
    }
    SplitOfDotted(ip, 4);
    return buf[..n];
  }

  // One turn of the printer's loop, after the dot.
  method WriteByte(buf: array<char>, n0: nat, v: int) returns (n: nat)
    requires 0 <= v < 256 && n0 + 3 <= buf.Length
    modifies buf
    ensures n0 < n <= n0 + 3
    ensures buf[..n] == old(buf[..n0]) + Dec(v)
  {
    n := n0;
    DecOfByte(v);
    if v >= 100 {
      buf[n] := Digit(v / 100);
      n := n + 1;
      buf[n] := Digit((v / 10) % 10);
      n := n + 1;
    } else if v >= 10 {
      buf[n] := Digit(v / 10);
      n := n + 1;
    }
    buf[n] := Digit(v % 10);
    n := n + 1;
  }

  // The digits of a byte.
  lemma DecOfByte(v: int)
    requires 0 <= v < 256
    ensures v >= 100 ==> Dec(v) == [Digit(v / 100), Digit((v / 10) % 10), Digit(v % 10)]
    ensures 10 <= v < 100 ==> Dec(v) == [Digit(v / 10), Digit(v % 10)]
    ensures v < 10 ==> Dec(v) == [Digit(v % 10)]
  {
    if v >= 100 {
      assert Dec(v) == Dec(v / 10) + [Digit(v % 10)];
      assert Dec(v / 10) == Dec(v / 10 / 10) + [Digit((v / 10) % 10)];
      assert v / 10 / 10 == v / 100 && v / 100 < 10;
    }
  }

  lemma SplitOfDotted(ip: seq<int>, n: nat)
    requires IsIPv4(ip) && 1 <= n <= 4
    ensures Split(DottedUpTo(ip, n), '.') == DecUpTo(ip, n)
  {
    DigitsHaveNo(Dec(ip[n - 1]), '.');
    if n == 1 {
      SplitPlain(Dec(ip[0]), '.');
    } else {
      SplitOfDotted(ip, n - 1);
      SplitField(DottedUpTo(ip, n - 1), Dec(ip[n - 1]), '.');
    }
  }

  function DecUpTo(ip: seq<int>, n: nat): seq<string>
    requires IsIPv4(ip) && n <= 4
  {
    seq(n, i requires 0 <= i < n => Dec(ip[i]))
  }

  // Printing then parsing gives the address back, for all 2^32 addresses.
  lemma PrintedReadsBack(ip: seq<int>)
    requires IsIPv4(ip)
    ensures IsAddressText(Dotted(ip)) && Octets(Dotted(ip)) == ip
  {
    SplitOfDotted(ip, 4);
    var fields := Split(Dotted(ip), '.');
    forall k | 0 <= k < 4 ensures AllDigits(fields[k]) && Value(fields[k]) == ip[k] {
      ValueOfDec(ip[k]);
    }
  }

  lemma PrintingIsInjective(a: seq<int>, b: seq<int>)
    requires IsIPv4(a) && IsIPv4(b) && Dotted(a) == Dotted(b)
    ensures a == b
  {
    PrintedReadsBack(a);
    PrintedReadsBack(b);
  }

  method RoundTrip(ip: seq<int>) returns (back: seq<int>, ok: bool)
    requires IsIPv4(ip)
    ensures ok && back == ip
  {
    var text := FormatIPv4(ip);
    PrintedReadsBack(ip);
    back, ok := ParseIPv4Fast(text);
  }

  // The parser is not the printer's inverse: an empty field reads as 0.
  lemma EmptyFieldsReadAsZero()
    ensures IsAddressText("...") && Octets("...") == [0, 0, 0, 0]
  {
    var dot := ['.'];
    SplitConcat("", "", '.');
    SplitConcat(".", "", '.');
    SplitConcat("..", "", '.');
    assert "" + dot + "" == "." && "." + dot + "" == ".." && ".." + dot + "" == "...";
    assert Split("...", '.') == ["", "", "", ""];
  }
}
