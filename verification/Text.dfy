// Decimal numbers and separators in strings, as strconv and strings treat them.
module Text {
  import opened PortTypes

  predicate IsDigit(c: char) {
    '0' <= c <= '9'
  }

  predicate AllDigits(s: string) {
    forall i :: 0 <= i < |s| ==> IsDigit(s[i])
  }

  function DigitValue(c: char): nat
    requires IsDigit(c)
  {
    c as int - '0' as int
  }

  function Digit(d: int): (c: char)
    requires 0 <= d < 10
    ensures IsDigit(c) && DigitValue(c) == d
  {
    '0' + d as char
  }

  // The number a string of digits spells; the empty string reads as 0.
  function Value(s: string): nat
    requires AllDigits(s)
  {
    if s == "" then 0 else 10 * Value(s[..|s| - 1]) + DigitValue(s[|s| - 1])
  }

  // Decimal without leading zeros.
  function Dec(n: nat): (s: string)
    ensures s != "" && AllDigits(s)
  {
    if n < 10 then [Digit(n)] else Dec(n / 10) + [Digit(n % 10)]
  }

  lemma {:induction false} ValueOfDec(n: nat)
    ensures Value(Dec(n)) == n
  {
    if n >= 10 {
      ValueOfDec(n / 10);
      assert Dec(n)[..|Dec(n)| - 1] == Dec(n / 10);
    } else {
      assert Dec(n)[..0] == "";
    }
  }

  lemma DecIsInjective(m: nat, n: nat)
    requires Dec(m) == Dec(n)
    ensures m == n
  {
    ValueOfDec(m);
    ValueOfDec(n);
  }

  // A number as fmt prints it with %d.
  function Show(n: int): string {
    if n < 0 then "-" + Dec(-n) else Dec(n)
  }

  lemma ShowIsInjective(m: int, n: int)
    requires Show(m) == Show(n)
    ensures m == n
  {
    assert Dec(if m < 0 then -m else m) != "" && IsDigit(Dec(if m < 0 then -m else m)[0]);
    assert Dec(if n < 0 then -n else n) != "" && IsDigit(Dec(if n < 0 then -n else n)[0]);
    if m < 0 {
      assert Show(m)[0] == '-' && Show(m)[1..] == Dec(-m) && Show(n)[1..] == Dec(-n);
      DecIsInjective(-m, -n);
    } else {
      assert Show(m)[0] != '-';
      DecIsInjective(m, n);
    }
  }

  // strings.Split with a one-character separator: the fields between separators, so always
  // one more than there are separators.
  function Split(s: string, sep: char): (fields: seq<string>)
    ensures |fields| >= 1
  {
    if s == "" then [""] else Extend(Split(s[..|s| - 1], sep), s[|s| - 1], sep)
  }

  // One more character either closes the last field or lengthens it.
  function Extend(fields: seq<string>, c: char, sep: char): (more: seq<string>)
    requires |fields| >= 1
    ensures |more| >= 1
  {
    if c == sep then fields + [""]
    else fields[|fields| - 1 := fields[|fields| - 1] + [c]]
  }

  lemma SplitSnoc(s: string, c: char, sep: char)
    ensures Split(s + [c], sep) == Extend(Split(s, sep), c, sep)
  {
    assert (s + [c])[..|s|] == s;
  }

  lemma ExtendConcat(a: seq<string>, b: seq<string>, c: char, sep: char)
    requires |b| >= 1
    ensures Extend(a + b, c, sep) == a + Extend(b, c, sep)
  {
  }

  // Gluing two strings with a separator concatenates their fields.
  lemma {:induction false} SplitConcat(s: string, t: string, sep: char)
    ensures Split(s + [sep] + t, sep) == Split(s, sep) + Split(t, sep)
  {
    if t == "" {
      assert s + [sep] + t == s + [sep];
      SplitSnoc(s, sep, sep);
    } else {
      var front, c := t[..|t| - 1], t[|t| - 1];
      SplitConcat(s, front, sep);
      SplitConcatStep(s + [sep] + front, Split(s, sep), front, c, sep);
      assert t == front + [c] && s + [sep] + t == (s + [sep] + front) + [c];
    }
  }

  lemma SplitConcatStep(whole: string, a: seq<string>, t: string, c: char, sep: char)
    requires Split(whole, sep) == a + Split(t, sep)
    ensures Split(whole + [c], sep) == a + Split(t + [c], sep)
  {
    SplitSnoc(whole, c, sep);
    SplitSnoc(t, c, sep);
    ExtendConcat(a, Split(t, sep), c, sep);
  }

  lemma {:induction false} SplitPlain(f: string, sep: char)
    requires sep !in f
    ensures Split(f, sep) == [f]
  {
    if f != "" {
      SplitPlain(f[..|f| - 1], sep);
      assert f == f[..|f| - 1] + [f[|f| - 1]];
    }
  }

  // Appending a separator and a field without one appends that field.
  lemma SplitField(s: string, f: string, sep: char)
    requires sep !in f
    ensures Split(s + [sep] + f, sep) == Split(s, sep) + [f]
  {
    SplitConcat(s, f, sep);
    SplitPlain(f, sep);
  }

  lemma ValueSnoc(s: string, c: char)
    requires AllDigits(s + [c])
    ensures AllDigits(s) && IsDigit(c)
    ensures Value(s + [c]) == 10 * Value(s) + DigitValue(c)
  {
    var t := s + [c];
    assert t[|s|] == c && t[..|s|] == s;
    forall i | 0 <= i < |s| ensures IsDigit(s[i]) {
      assert s[i] == t[i];
    }
  }

  lemma DigitsHaveNo(s: string, c: char)
    requires AllDigits(s) && !IsDigit(c)
    ensures c !in s
  {
  }

  // No field holds a separator.
  lemma {:induction false} FieldsArePlain(s: string, sep: char)
    ensures forall k :: 0 <= k < |Split(s, sep)| ==> sep !in Split(s, sep)[k]
  {
    if s != "" {
      FieldsArePlain(s[..|s| - 1], sep);
    }
  }

  // ---------- strings.TrimSpace, strings.ToLower, strconv.Atoi ----------

  predicate IsSpace(c: char) {
    c == ' ' || '\t' <= c <= '\r' || c as int == 0x85 || c as int == 0xA0
  }

  function TrimSpace(s: string): (t: string)
    ensures t == "" || (!IsSpace(t[0]) && !IsSpace(t[|t| - 1]))
    decreases |s|
  {
    if s == "" then ""
    else if IsSpace(s[0]) then TrimSpace(s[1..])
    else if IsSpace(s[|s| - 1]) then TrimSpace(s[..|s| - 1])
    else s
  }

  function ToLower(s: string): string {
    seq(|s|, i requires 0 <= i < |s| => if 'A' <= s[i] <= 'Z' then s[i] - 'A' + 'a' else s[i])
  }

  const INT_LIMIT: int := 0x8000_0000_0000_0000

  // An optional sign and at least one digit, within 64 bits.
  function Atoi(s: string): (n: Option<int>)
    ensures n.Some? && '-' !in s ==> n.value >= 0
  {
    var signed := s != "" && (s[0] == '+' || s[0] == '-');
    var digits := if signed then s[1..] else s;
    if digits == "" || !AllDigits(digits) then None
    else
      var v: int := if s[0] == '-' then 0 - Value(digits) as int else Value(digits);
      if -INT_LIMIT <= v < INT_LIMIT then Some(v) else None
  }

  lemma AtoiOfDec(n: nat)
    requires n < INT_LIMIT
    ensures Atoi(Dec(n)) == Some(n)
  {
    ValueOfDec(n);
    assert IsDigit(Dec(n)[0]);
  }
}
