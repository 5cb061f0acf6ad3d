/** Decimal numerals: `print_uint` and `parse_uint` of io.c, and that they undo each other. */
module Numbers {
  import opened Common
  import opened Pipes

  predicate IsDigit(c: char) {
    '0' <= c <= '9'
  }

  function DigitChar(d: nat): (c: char)
    requires d < 10
    ensures IsDigit(c) && DigitValue(c) == d
  {
    '0' + d as char
  }

  function DigitValue(c: char): (d: nat)
    requires IsDigit(c)
    ensures d < 10
  {
    (c - '0') as nat
  }

  predicate AllDigits(s: seq<char>) {
    forall i :: 0 <= i < |s| ==> IsDigit(s[i])
  }

  /** What `strtoul` makes of a digit string; the empty string counts as 0. */
  function ValueOf(s: seq<char>): nat
    requires AllDigits(s)
  {
    if s == [] then 0 else 10 * ValueOf(s[..|s| - 1]) + DigitValue(s[|s| - 1])
  }

  lemma Digits()
    ensures DigitValue('0') == 0 && DigitValue('1') == 1 && DigitValue('2') == 2 && DigitValue('3') == 3
    ensures DigitValue('4') == 4 && DigitValue('5') == 5 && DigitValue('6') == 6 && DigitValue('7') == 7
    ensures DigitValue('8') == 8 && DigitValue('9') == 9
    ensures forall c :: IsDigit(c) <==> c in "0123456789"
  {
  }

  /** The positional law: base 10, whatever the first digit. */
  lemma {:induction false} Positional(c: char, s: seq<char>)
    requires IsDigit(c) && AllDigits(s)
    ensures AllDigits([c] + s) && ValueOf([c] + s) == DigitValue(c) * Pow10(|s|) + ValueOf(s)
  {
    var t := [c] + s;
    if s == [] {
      assert t[..0] == [];
    } else {
      var n := |s| - 1;
      Positional(c, s[..n]);
      assert t[..|t| - 1] == [c] + s[..n];
      TenTimes(DigitValue(c), Pow10(n), ValueOf(s[..n]));
    }
  }

  lemma TenTimes(d: nat, p: nat, v: nat)
    ensures 10 * (d * p + v) == d * (10 * p) + 10 * v
  {
  }

  function Zeros(n: nat): (s: seq<char>)
    ensures |s| == n && AllDigits(s)
  {
    seq(n, i => '0')
  }

  /** Zeros in front of a numeral change nothing. */
  lemma {:induction false} LeadingZeros(n: nat, s: seq<char>)
    requires AllDigits(s)
    ensures ValueOf(Zeros(n) + s) == ValueOf(s)
  {
    if n == 0 {
      assert Zeros(0) + s == s;
    } else {
      LeadingZeros(n - 1, s);
      assert Zeros(n) + s == ['0'] + (Zeros(n - 1) + s);
      Positional('0', Zeros(n - 1) + s);
    }
  }

  function Decimal(v: nat): (s: seq<char>)
    ensures AllDigits(s) && s != []
  {
    if v < 10 then [DigitChar(v)] else Decimal(v / 10) + [DigitChar(v % 10)]
  }

  predicate NoLeadingZero(s: seq<char>) {
    s != [] && (|s| > 1 ==> s[0] != '0')
  }

  lemma {:induction false} DecimalValue(v: nat)
    ensures ValueOf(Decimal(v)) == v && NoLeadingZero(Decimal(v)) && (v > 0 ==> Decimal(v)[0] != '0')
  {
    if v >= 10 {
      DecimalValue(v / 10);
      assert Decimal(v)[..|Decimal(v)| - 1] == Decimal(v / 10);
    } else {
      assert [DigitChar(v)][..0] == [];
    }
  }

  lemma {:induction false} PositiveValue(s: seq<char>)
    requires AllDigits(s) && s != [] && s[0] != '0'
    ensures ValueOf(s) > 0
  {
    if |s| > 1 { PositiveValue(s[..|s| - 1]); }
  }

  /** `Decimal` is the only numeral of its value without superfluous leading zeros. */
  lemma {:induction false} DecimalUnique(s: seq<char>)
    requires AllDigits(s) && NoLeadingZero(s)
    ensures s == Decimal(ValueOf(s))
  {
    var n := |s| - 1;
    if n == 0 {
      assert s[..0] == [];
    } else {
      assert NoLeadingZero(s[..n]);
      DecimalUnique(s[..n]);
      PositiveValue(s[..n]);
      assert s == s[..n] + [s[n]];
    }
  }

  lemma {:induction false} DecimalLength(v: nat, width: nat)
    requires v < Pow10(width) && width > 0
    ensures |Decimal(v)| <= width
  {
    if v >= 10 { DecimalLength(v / 10, width - 1); }
  }

  function Pow10(n: nat): nat {
    if n == 0 then 1 else 10 * Pow10(n - 1)
  }

  lemma UintLength(v: uint)
    ensures |Decimal(v)| <= 10
  {
    assert Pow10(5) == 100000;
    assert Pow10(10) == 100000 * Pow10(5);
    DecimalLength(v, 10);
  }

  /** The digits still to be put in front; none once the value is 0. */
  function Front(value: nat): seq<char> {
    if value == 0 then [] else Decimal(value)
  }

  lemma LastDigit(value: nat, tail: seq<char>)
    requires value > 0
    ensures Front(value) + tail == Front(value / 10) + ([DigitChar(value % 10)] + tail)
  {
    var front := Front(value / 10);
    assert Decimal(value) == front + [DigitChar(value % 10)];
    assert front + [DigitChar(value % 10)] + tail == front + ([DigitChar(value % 10)] + tail);
  }

  /** The first loop of `print_uint`: fills its 16-byte buffer from the back. */
  method FillDigits(buffer: array<char>, v: uint) returns (i: nat)
    requires buffer.Length == 16
    modifies buffer
    ensures i <= 16 && buffer[i..] == Decimal(v)
  {
    hide Decimal, Front;
    var value := v;
    i := 16;
    UintLength(v);
    FrontIs(v);
    while value > 0
      invariant 0 <= i <= 16 && 0 <= value <= v
      invariant Front(v) == Front(value) + buffer[i..]
      invariant value == v ==> i == 16
    {
      LastDigit(value, buffer[i..]);
      FrontIs(value);
      ghost var tail := buffer[i..];
      i := i - 1;
      buffer[i] := DigitChar(value % 10);
      assert buffer[i..] == [DigitChar(value % 10)] + tail;
      value := value / 10;
    }
    FrontIs(0);
    if i == 16 {
      i := i - 1;
      buffer[i] := '0';
      assert buffer[i..] == [DigitChar(0)];
    }
  }

  lemma FrontIs(value: nat)
    ensures if value == 0 then Front(value) == [] && Decimal(value) == [DigitChar(0)]
            else Front(value) == Decimal(value) && |Front(value)| > 0
  {
  }

  /** `print_uint`: the numeral reaches the file whole, for any chunking of the writes. */
  method PrintUint(fd: Sink<char>, v: uint)
    modifies fd
    ensures fd.written == old(fd.written) + Decimal(v)
  {
    var buffer := new char[16](i => '0');
    var i := FillDigits(buffer, v);
    ghost var from, text, before := i, buffer[..], fd.written;
    while i < 16
      invariant from <= i <= 16 && buffer[..] == text
      invariant fd.written == before + text[from..i]
      modifies fd
    {
      assert buffer[i..16] == text[i..];
      var k := fd.Write(buffer[i..16]);
      Extend(text, from, i, k);
      assert before + text[from..i] + text[i..][..k] == before + text[from..i + k];
      i := i + k;
    }
    assert text[from..16] == text[from..] == Decimal(v);
  }

  lemma Extend<T>(s: seq<T>, a: nat, b: nat, k: nat)
    requires a <= b && b + k <= |s|
    ensures s[a..b] + s[b..][..k] == s[a..b + k]
  {
  }

  // ---- Reading ---------------------------------------------------------------------------------------

  /**
   * The outcome of `parse_uint`: a value and the character after the numeral, a value above UINT_MAX,
   * or more digits than its 16-byte buffer holds, after which the source has no defined behaviour.
   */
  datatype Numeral = Number(value: uint, next: char) | TooBig | Overrun

  function DigitRun(s: seq<char>): (d: nat)
    ensures d <= |s| && AllDigits(s[..d]) && (d < |s| ==> !IsDigit(s[d]))
  {
    if s == [] || !IsDigit(s[0]) then 0
    else
      var d := DigitRun(s[1..]);
      assert s[..d + 1] == [s[0]] + s[1..][..d];
      d + 1
  }

  /** The largest number of digits before a terminator that `char buf[16]` has room for. */
  const MAX_DIGITS: nat := 15

  /** `r` is what is left of `s` after some characters. */
  predicate Suffix(s: seq<char>, r: seq<char>) {
    |r| <= |s| && r == s[|s| - |r|..]
  }

  /**
   * `parse_uint` on the characters still to be read. At end of input the source converts a buffer it has
   * not terminated: `eof` is whatever comes out, or `None` for a value that is too large.
   */
  function ParseUint(s: seq<char>, eof: Option<uint>): (r: (Numeral, seq<char>))
    ensures Suffix(s, r.1) && (s != [] ==> |r.1| < |s|)
  {
    var d := DigitRun(s);
    if d == |s| then
      (if d > MAX_DIGITS + 1 then Overrun else if eof.Some? then Number(eof.value, '\0') else TooBig, [])
    else if d > MAX_DIGITS then (Overrun, s[d + 1..])
    else
      var v := ValueOf(s[..d]);
      (if v > UINT_MAX then TooBig else Number(v, s[d]), s[d + 1..])
  }

  lemma {:induction false} DigitRunIs(a: seq<char>, c: char, rest: seq<char>)
    requires AllDigits(a) && !IsDigit(c)
    ensures DigitRun(a + [c] + rest) == |a|
  {
    if a != [] {
      assert (a + [c] + rest)[1..] == a[1..] + [c] + rest;
      DigitRunIs(a[1..], c, rest);
    }
  }

  /** The number codec: reading back a printed number gives the number and leaves the rest untouched. */
  lemma ParsePrinted(v: uint, c: char, rest: seq<char>, eof: Option<uint>)
    requires !IsDigit(c)
    ensures ParseUint(Decimal(v) + [c] + rest, eof) == (Number(v, c), rest)
  {
    var s := Decimal(v) + [c] + rest;
    DigitRunIs(Decimal(v), c, rest);
    UintLength(v);
    DecimalValue(v);
    assert s[..|Decimal(v)|] == Decimal(v);
    assert s[|Decimal(v)| + 1..] == rest;
  }

  /** A number written with any zeros in front, at most 15 digits in all, is read back too. */
  lemma ParseWithZeros(n: nat, v: uint, c: char, rest: seq<char>, eof: Option<uint>)
    requires !IsDigit(c) && n + |Decimal(v)| <= 15
    ensures ParseUint(Zeros(n) + Decimal(v) + [c] + rest, eof) == (Number(v, c), rest)
  {
    hide Decimal, DigitRun, ValueOf, Zeros;
    var digits := Zeros(n) + Decimal(v);
    var s := digits + [c] + rest;
    DigitRunIs(digits, c, rest);
    LeadingZeros(n, Decimal(v));
    DecimalValue(v);
    assert s[..|digits|] == digits;
    assert s[|digits| + 1..] == rest;
  }

  /** The loop of `parse_uint` over its 16-byte buffer. */
  method ParseUintFrom(fd: TextFile, eof: Option<uint>) returns (r: Numeral)
    modifies fd
    ensures r == ParseUint(old(fd.rest), eof).0
    ensures !r.Overrun? ==> fd.rest == ParseUint(old(fd.rest), eof).1
  {
    var buffer := new char[16](i => '\0');
    ghost var s := fd.rest;
    var i := 0;
    while true
      invariant 0 <= i <= 16 && i <= |s| && fd.rest == s[i..]
      invariant buffer[..i] == s[..i] && AllDigits(s[..i])
      decreases 16 - i
    {
      if i == 16 {
        // one more character would be stored behind the buffer
        DigitRunAtLeast(s, i);
        if fd.rest == [] {
          return if eof.Some? then Number(eof.value, '\0') else TooBig;
        }
        return Overrun;
      }
      var k := fd.Read(buffer, i, 1);
      if k == 0 {
        DigitRunAtLeast(s, i);
        return if eof.Some? then Number(eof.value, '\0') else TooBig;
      }
      assert buffer[i] == s[i] && buffer[..i] == s[..i];
      if buffer[i] > '9' || buffer[i] < '0' {
        assert s == s[..i] + [s[i]] + s[i + 1..];
        DigitRunIs(s[..i], s[i], s[i + 1..]);
        var v := ValueOf(buffer[..i]);
        return if v > UINT_MAX then TooBig else Number(v, buffer[i]);
      }
      assert s[..i + 1] == s[..i] + [s[i]];
      i := i + 1;
    }
  }

  lemma {:induction false} DigitRunAtLeast(s: seq<char>, i: nat)
    requires i <= |s| && AllDigits(s[..i])
    ensures DigitRun(s) >= i
  {
    if i > 0 {
      assert s[0] == s[..i][0];
      assert s[1..][..i - 1] == s[..i][1..];
      DigitRunAtLeast(s[1..], i - 1);
    }
  }
}
