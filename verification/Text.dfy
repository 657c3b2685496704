/** Decimal and hexadecimal printing, as fmt.Sprintf and hex.EncodeToString do it. */
module Text {

  predicate IsDigit(c: char) {
    '0' <= c <= '9'
  }

  predicate IsHex(c: char) {
    IsDigit(c) || 'a' <= c <= 'f'
  }

  function Digit(d: nat): (c: char)
    requires d < 10
    ensures IsDigit(c)
  {
    '0' + d as char
  }

  function HexDigit(d: nat): (c: char)
    requires d < 16
    ensures IsHex(c)
  {
    if d < 10 then Digit(d) else 'a' + (d - 10) as char
  }

  /** %d for a natural number. */
  function Dec(n: nat): (s: string)
    ensures |s| > 0 && forall c <- s :: IsDigit(c)
  {
    if n < 10 then [Digit(n)] else Dec(n / 10) + [Digit(n % 10)]
  }

  /** %d for any integer. */
  function Int(n: int): string {
    if n < 0 then "-" + Dec(-n) else Dec(n)
  }

  /** Two digits, the high one first. */
  function HexByte(n: nat): (s: string)
    requires n < 256
    ensures |s| == 2 && forall c <- s :: IsHex(c)
  {
    [HexDigit(n / 16), HexDigit(n % 16)]
  }

  function Hex(bytes: seq<bv8>): (s: string)
    ensures |s| == 2 * |bytes| && forall c <- s :: IsHex(c)
  {
    if bytes == [] then [] else HexByte(bytes[0] as nat) + Hex(bytes[1..])
  }

  /** The number a string of digits stands for. */
  function Value(s: string): nat
    requires forall c <- s :: IsDigit(c)
  {
    if s == [] then 0 else
      assert IsDigit(s[|s| - 1]);
      10 * Value(s[..|s| - 1]) + (s[|s| - 1] as int - '0' as int)
  }

  lemma {:induction false} DecRoundTrip(n: nat)
    ensures Value(Dec(n)) == n
  {
    if n < 10 {
      assert Dec(n)[..0] == [];
    } else {
      DecRoundTrip(n / 10);
      assert Dec(n)[..|Dec(n)| - 1] == Dec(n / 10);
    }
  }

  /** Text that cannot be mistaken for more digits. */
  predicate EndsNumber(tail: string) {
    tail == [] || !IsDigit(tail[0])
  }

  /** Length of the digits a text starts with. */
  function DigitRun(s: string): nat {
    if s == [] || !IsDigit(s[0]) then 0 else 1 + DigitRun(s[1..])
  }

  lemma {:induction false} DigitRunEnds(digits: string, tail: string)
    requires (forall c <- digits :: IsDigit(c)) && EndsNumber(tail)
    ensures DigitRun(digits + tail) == |digits|
  {
    if digits == [] {
      assert digits + tail == tail;
    } else {
      assert (digits + tail)[1..] == digits[1..] + tail && (digits + tail)[0] in digits;
      DigitRunEnds(digits[1..], tail);
    }
  }

  /** A number can be read off the front of a text, and so can what follows it. */
  lemma DecPrefixInjective(m: nat, a: string, n: nat, b: string)
    requires EndsNumber(a) && EndsNumber(b) && Dec(m) + a == Dec(n) + b
    ensures m == n && a == b
  {
    DigitRunEnds(Dec(m), a);
    DigitRunEnds(Dec(n), b);
    var s := Dec(m) + a;
    assert Dec(m) == s[..|Dec(m)|] == Dec(n) && a == s[|Dec(m)|..] == b;
    DecRoundTrip(m);
    DecRoundTrip(n);
  }

  lemma IntPrefixInjective(m: int, a: string, n: int, b: string)
    requires EndsNumber(a) && EndsNumber(b) && Int(m) + a == Int(n) + b
    ensures m == n && a == b
  {
    hide Dec, EndsNumber;
    FirstOfInt(m, a);
    FirstOfInt(n, b);
    if m < 0 {
      AfterSign(-m, a);
      AfterSign(-n, b);
      DecPrefixInjective(-m, a, -n, b);
    } else {
      DecPrefixInjective(m, a, n, b);
    }
  }

  lemma AfterSign(n: nat, tail: string)
    ensures ("-" + Dec(n) + tail)[1..] == Dec(n) + tail
  {
    hide Dec;
  }

  lemma FirstOfInt(n: int, tail: string)
    ensures (Int(n) + tail)[0] == '-' <==> n < 0
  {
    hide Dec;
    if n >= 0 { assert Dec(n)[0] in Dec(n); }
  }

  lemma HexDigitInjective(d: nat, e: nat)
    requires d < 16 && e < 16 && HexDigit(d) == HexDigit(e)
    ensures d == e
  {}

  lemma HexByteInjective(m: nat, n: nat)
    requires m < 256 && n < 256 && HexByte(m) == HexByte(n)
    ensures m == n
  {
    hide HexDigit;
    assert HexByte(m)[0] == HexByte(n)[0] && HexByte(m)[1] == HexByte(n)[1];
    HexDigitInjective(m / 16, n / 16);
    HexDigitInjective(m % 16, n % 16);
  }

  lemma SameByte(a: bv8, b: bv8)
    requires a as nat == b as nat
    ensures a == b
  {}

  lemma HexFirst(r: seq<bv8>)
    requires r != []
    ensures Hex(r)[..2] == HexByte(r[0] as nat) && Hex(r)[2..] == Hex(r[1..])
  {
    hide HexByte;
  }

  lemma {:induction false} HexInjective(r: seq<bv8>, q: seq<bv8>)
    requires |r| == |q| && Hex(r) == Hex(q)
    ensures r == q
  {
    hide Hex, HexByte;
    if r != [] {
      HexFirst(r);
      HexFirst(q);
      HexByteInjective(r[0] as nat, q[0] as nat);
      SameByte(r[0], q[0]);
      HexInjective(r[1..], q[1..]);
      assert r == [r[0]] + r[1..] && q == [q[0]] + q[1..];
    }
  }
}
