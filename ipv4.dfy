/**
 * The address codec: `ipToInt` packs dotted IPv4 text into a number with
 * JavaScript's 32-bit shift operators, `intToIP` unpacks it with `>>` and
 * `& 255`. Text is `seq<char>`; the JavaScript NaN is `None`.
 */
module Ipv4 {
  import opened Wrappers

  const TwoTo31: int := 0x8000_0000
  const TwoTo32: int := 0x1_0000_0000

  function Pow2(n: nat): (r: nat)
    ensures r >= 1
  {
    if n == 0 then 1 else 2 * Pow2(n - 1)
  }

  /** JavaScript's ToInt32: the signed 32-bit value congruent to `x` modulo 2^32. */
  function ToInt32(x: int): (r: int)
    ensures -TwoTo31 <= r < TwoTo31
    ensures (x - r) % TwoTo32 == 0
    ensures -TwoTo31 <= x < TwoTo31 ==> r == x
  {
    var m := x % TwoTo32;
    if m >= TwoTo31 then m - TwoTo32 else m
  }

  /** `x << n`: both the operand and the product are wrapped to 32 bits. */
  function ShiftLeft(x: int, n: nat): (r: int)
    requires n < 32
    ensures -TwoTo31 <= r < TwoTo31
    ensures 0 <= x && x * Pow2(n) < TwoTo31 ==> r == x * Pow2(n)
  {
    var p := Pow2(n);
    if 0 <= x then
      NoSmallerProduct(x, p);
      ToInt32(ToInt32(x) * p)
    else
      ToInt32(ToInt32(x) * p)
  }

  lemma NoSmallerProduct(x: int, p: int)
    requires 0 <= x && 1 <= p
    ensures x <= x * p
  {
    assert x * p == x + x * (p - 1);
  }

  /** `x >> n`: the arithmetic (sign-propagating) shift, a floor division. */
  function ShiftRight(x: int, n: nat): (r: int)
    requires n < 32
    ensures r * Pow2(n) <= ToInt32(x) < (r + 1) * Pow2(n)
  {
    ToInt32(x) / Pow2(n)
  }

  /** `x & 255`: the low byte of the 32-bit two's-complement value. */
  function LowByte(x: int): (r: nat)
    ensures r < 256
    ensures (ToInt32(x) - r) % 256 == 0
  {
    ToInt32(x) % 256
  }

  // ---------------------------------------------------------------- text

  predicate IsDigit(c: char) {
    '0' <= c <= '9'
  }

  predicate AllDigits(t: string) {
    forall i :: 0 <= i < |t| ==> IsDigit(t[i])
  }

  function DigitChar(d: nat): (c: char)
    requires d < 10
    ensures IsDigit(c)
  {
    (('0' as int) + d) as char
  }

  function DigitValue(c: char): (d: nat)
    requires IsDigit(c)
    ensures d < 10 && DigitChar(d) == c
  {
    (c as int) - ('0' as int)
  }

  /** The shortest base-10 text of `n`, as JavaScript prints an octet (0 to 255). */
  function DecimalText(n: nat): (t: string)
    ensures |t| >= 1 && AllDigits(t)
    ensures |t| > 1 ==> t[0] != '0'
  {
    if n < 10 then [DigitChar(n)] else DecimalText(n / 10) + [DigitChar(n % 10)]
  }

  /** The value of a run of decimal digits. */
  function DigitsValue(t: string): nat
    requires AllDigits(t)
  {
    if t == [] then 0 else DigitsValue(t[..|t| - 1]) * 10 + DigitValue(t[|t| - 1])
  }

  /** The longest prefix of `t` made of decimal digits. */
  function DigitPrefix(t: string): (p: string)
    ensures AllDigits(p) && p <= t
    ensures |p| < |t| ==> !IsDigit(t[|p|])
  {
    if t == [] || !IsDigit(t[0]) then [] else [t[0]] + DigitPrefix(t[1..])
  }

  /** `parseInt(t, 10)`: the value of the leading digits, NaN when there are none. */
  function ParseInt(t: string): (r: Option<int>)
    ensures r.Some? <==> t != [] && IsDigit(t[0])
  {
    var p := DigitPrefix(t);
    if p == [] then None else Some(DigitsValue(p))
  }

  /** `s.split(".")`. */
  function Split(s: string): (parts: seq<string>)
    ensures |parts| >= 1
    ensures forall k :: 0 <= k < |parts| ==> '.' !in parts[k]
  {
    if s == [] then [""]
    else
      var rest := Split(s[1..]);
      if s[0] == '.' then [""] + rest else [[s[0]] + rest[0]] + rest[1..]
  }

  /** The inverse of `Split`: the parts joined with dots. */
  function Join(parts: seq<string>): string
    requires |parts| >= 1
  {
    if |parts| == 1 then parts[0] else parts[0] + "." + Join(parts[1..])
  }

  /** A canonical octet: one to three digits, no leading zero, at most 255. */
  predicate IsOctetText(t: string) {
    && 1 <= |t| <= 3
    && AllDigits(t)
    && (|t| > 1 ==> t[0] != '0')
    && DigitsValue(t) < 256
  }

  /** Canonical dotted-quad IPv4 text. */
  predicate IsDottedQuad(s: string) {
    var parts := Split(s);
    |parts| == 4 && forall k :: 0 <= k < 4 ==> IsOctetText(parts[k])
  }

  function Dotted(o0: nat, o1: nat, o2: nat, o3: nat): string {
    DecimalText(o0) + "." + (DecimalText(o1) + "." + (DecimalText(o2) + "." + DecimalText(o3)))
  }

  // --------------------------------------------------------------- codec

  /** `parseInt(parts[k], 10)`, NaN for a missing part. */
  function Part(parts: seq<string>, k: nat): Option<int> {
    if k < |parts| then ParseInt(parts[k]) else None
  }

  /** `parseInt(...) << n`: a NaN operand converts to 0 under the shift. */
  function Shifted(parsed: Option<int>, n: nat): int
    requires n < 32
  {
    match parsed
    case None => 0
    case Some(x) => ShiftLeft(x, n)
  }

  /**
   * `ipToInt`: the sum of the shifted first three parts and the unshifted
   * fourth; NaN exactly when the fourth part is missing or not numeric.
   */
  function IpToInt(ip: string): (r: Option<int>)
    ensures r.Some? <==> |Split(ip)| >= 4 && Split(ip)[3] != [] && IsDigit(Split(ip)[3][0])
  {
    var parts := Split(ip);
    match Part(parts, 3)
    case None => None
    case Some(o3) => Some(Shifted(Part(parts, 0), 24) + Shifted(Part(parts, 1), 16) + Shifted(Part(parts, 2), 8) + o3)
  }

  /** `intToIP`: the four bytes, most significant first, joined with dots. */
  function IntToIp(v: int): (s: string)
    ensures IsDottedQuad(s)
  {
    var o0, o1, o2, o3 := LowByte(ShiftRight(v, 24)), LowByte(ShiftRight(v, 16)), LowByte(ShiftRight(v, 8)), LowByte(v);
    DottedIsQuad(o0, o1, o2, o3);
    Dotted(o0, o1, o2, o3)
  }

  /** The four octets packed big-endian and read as a signed 32-bit number. */
  function PackSigned(o0: nat, o1: nat, o2: nat, o3: nat): int {
    ToInt32(o0 * 0x100_0000 + o1 * 0x1_0000 + o2 * 0x100 + o3)
  }

  // -------------------------------------------------------- decimal text

  lemma {:induction false} DigitsOfDecimal(n: nat)
    ensures DigitsValue(DecimalText(n)) == n
  {
    if n >= 10 {
      DigitsOfDecimal(n / 10);
      var t := DecimalText(n);
      assert t[..|t| - 1] == DecimalText(n / 10);
    }
  }

  lemma {:induction false} LeadingDigitPositive(t: string)
    requires t != [] && AllDigits(t) && t[0] != '0'
    ensures DigitsValue(t) >= 1
  {
    if |t| > 1 {
      var front := t[..|t| - 1];
      assert front[0] == t[0];
      LeadingDigitPositive(front);
    } else {
      assert DigitsValue(t) == DigitsValue([]) * 10 + DigitValue(t[0]);
    }
  }

  /** Printing the value of canonical digits gives the digits back. */
  lemma {:induction false} DecimalOfDigits(t: string)
    requires t != [] && AllDigits(t) && (|t| > 1 ==> t[0] != '0')
    ensures DecimalText(DigitsValue(t)) == t
  {
    var front, last := t[..|t| - 1], t[|t| - 1];
    var d := DigitValue(last);
    var n := DigitsValue(t);
    assert n == DigitsValue(front) * 10 + d;
    if |t| == 1 {
      assert front == [];
      assert DecimalText(n) == [DigitChar(d)];
    } else {
      assert front[0] == t[0];
      LeadingDigitPositive(front);
      DecimalOfDigits(front);
      DivModUnique(n, 10, DigitsValue(front), d);
      assert DecimalText(n) == DecimalText(DigitsValue(front)) + [DigitChar(d)];
      assert t == front + [last];
    }
  }

  lemma {:induction false} PrefixOfDigits(t: string)
    requires AllDigits(t)
    ensures DigitPrefix(t) == t
  {
    if t != [] {
      PrefixOfDigits(t[1..]);
    }
  }

  lemma ParseDecimal(n: nat)
    ensures ParseInt(DecimalText(n)) == Some(n)
  {
    PrefixOfDigits(DecimalText(n));
    DigitsOfDecimal(n);
  }

  // --------------------------------------------------------------- split

  lemma {:induction false} SplitDotFree(a: string)
    requires '.' !in a
    ensures Split(a) == [a]
  {
    if a != [] {
      SplitDotFree(a[1..]);
      assert [a[0]] + a[1..] == a;
    }
  }

  lemma {:induction false} SplitAtDot(a: string, b: string)
    requires '.' !in a
    ensures Split(a + "." + b) == [a] + Split(b)
  {
    if a == [] {
      assert a + "." + b == ['.'] + b;
      assert (['.'] + b)[1..] == b;
    } else {
      var s := a + "." + b;
      assert s[1..] == a[1..] + "." + b;
      SplitAtDot(a[1..], b);
      assert [a[0]] + a[1..] == a;
    }
  }

  lemma {:induction false} JoinSplit(s: string)
    ensures Join(Split(s)) == s
  {
    if s != [] {
      JoinSplit(s[1..]);
      var rest := Split(s[1..]);
      if s[0] == '.' {
        assert ([""] + rest)[1..] == rest;
      } else if |rest| == 1 {
        assert s == [s[0]] + s[1..];
      } else {
        var parts := [[s[0]] + rest[0]] + rest[1..];
        assert parts[1..] == rest[1..];
        assert Join(rest) == rest[0] + "." + Join(rest[1..]);
        assert s == [s[0]] + s[1..];
      }
    }
  }

  lemma DigitsDotFree(t: string)
    requires AllDigits(t)
    ensures '.' !in t
  {
  }

  lemma SplitFour(t0: string, t1: string, t2: string, t3: string)
    requires '.' !in t0 && '.' !in t1 && '.' !in t2 && '.' !in t3
    ensures Split(t0 + "." + (t1 + "." + (t2 + "." + t3))) == [t0, t1, t2, t3]
  {
    SplitDotFree(t3);
    SplitAtDot(t2, t3);
    SplitAtDot(t1, t2 + "." + t3);
    SplitAtDot(t0, t1 + "." + (t2 + "." + t3));
  }

  lemma SplitDotted(o0: nat, o1: nat, o2: nat, o3: nat)
    ensures Split(Dotted(o0, o1, o2, o3)) == [DecimalText(o0), DecimalText(o1), DecimalText(o2), DecimalText(o3)]
  {
    DigitsDotFree(DecimalText(o0));
    DigitsDotFree(DecimalText(o1));
    DigitsDotFree(DecimalText(o2));
    DigitsDotFree(DecimalText(o3));
    SplitFour(DecimalText(o0), DecimalText(o1), DecimalText(o2), DecimalText(o3));
  }

  // ---------------------------------------------------------- arithmetic

  /** Euclidean division by a positive divisor is determined by a quotient and a remainder in range. */
  lemma DivModUnique(x: int, d: int, q: int, r: int)
    requires d > 0 && 0 <= r < d && x == q * d + r
    ensures x / d == q && x % d == r
  {
    var k := x / d - q;
    assert k * d == r - x % d;
    if k > 0 {
      MulAtLeast(k, d);
      assert false;
    } else if k < 0 {
      MulAtLeast(-k, d);
      assert false;
    }
  }

  lemma MulAtLeast(k: int, d: int)
    requires k >= 1 && d > 0
    ensures k * d >= d
  {
  }

  lemma Pow2Values()
    ensures Pow2(8) == 0x100 && Pow2(16) == 0x1_0000 && Pow2(24) == 0x100_0000
  {
  }

  /** The three shifts of canonical octets, summed as `ipToInt` does, give the signed packing. */
  lemma ShiftedOctets(o0: nat, o1: nat, o2: nat, o3: nat)
    requires o0 < 256 && o1 < 256 && o2 < 256 && o3 < 256
    ensures ShiftLeft(o0, 24) + ShiftLeft(o1, 16) + ShiftLeft(o2, 8) + o3 == PackSigned(o0, o1, o2, o3)
    ensures PackSigned(o0, o1, o2, o3) < 0 <==> o0 >= 128
  {
    Pow2Values();
    var low := o1 * 0x1_0000 + o2 * 0x100 + o3;
    assert 0 <= low < 0x100_0000;
    var p := o0 * 0x100_0000 + low;
    assert 0 <= p < TwoTo32;
    assert ShiftLeft(o1, 16) == o1 * 0x1_0000;
    assert ShiftLeft(o2, 8) == o2 * 0x100;
    var hi := o0 * 0x100_0000;
    assert 0 <= hi < TwoTo32;
    DivModUnique(hi, TwoTo32, 0, hi);
    DivModUnique(p, TwoTo32, 0, p);
    if o0 >= 128 {
      assert hi >= TwoTo31 && p >= TwoTo31;
      assert ShiftLeft(o0, 24) == hi - TwoTo32;
      assert PackSigned(o0, o1, o2, o3) == p - TwoTo32;
    } else {
      assert hi + low < TwoTo31;
      assert ShiftLeft(o0, 24) == hi;
      assert PackSigned(o0, o1, o2, o3) == p;
    }
  }

  /** `ipToInt` of canonical text is the signed packing of its octets. */
  lemma EncodeDotted(o0: nat, o1: nat, o2: nat, o3: nat)
    requires o0 < 256 && o1 < 256 && o2 < 256 && o3 < 256
    ensures IpToInt(Dotted(o0, o1, o2, o3)) == Some(PackSigned(o0, o1, o2, o3))
  {
    SplitDotted(o0, o1, o2, o3);
    ParseDecimal(o0);
    ParseDecimal(o1);
    ParseDecimal(o2);
    ParseDecimal(o3);
    ShiftedOctets(o0, o1, o2, o3);
  }

  /** `& 255` sees only the low byte, which wrapping to 32 bits leaves alone. */
  lemma LowByteIsMod(x: int)
    ensures LowByte(x) == x % 256
  {
    var r := ToInt32(x);
    var m := (x - r) / TwoTo32;
    assert x - r == m * TwoTo32;
    DivModUnique(x, 256, m * 0x100_0000 + r / 256, r % 256);
  }

  /** The byte `(v >> n) & 255` of a signed 32-bit `v` laid out around position 2^n. */
  lemma ByteAt(v: int, n: nat, high: int, b: int, low: int)
    requires n < 32 && -TwoTo31 <= v < TwoTo31
    requires 0 <= b < 256 && 0 <= low < Pow2(n)
    requires v == (high * 256 + b) * Pow2(n) + low
    ensures LowByte(ShiftRight(v, n)) == b
  {
    DivModUnique(v, Pow2(n), high * 256 + b, low);
    LowByteIsMod(high * 256 + b);
    DivModUnique(high * 256 + b, 256, high, b);
  }

  /** The bytes `>>` and `& 255` extract from a signed packing are its octets. */
  lemma BytesOfPacked(o0: nat, o1: nat, o2: nat, o3: nat)
    requires o0 < 256 && o1 < 256 && o2 < 256 && o3 < 256
    ensures LowByte(ShiftRight(PackSigned(o0, o1, o2, o3), 24)) == o0
    ensures LowByte(ShiftRight(PackSigned(o0, o1, o2, o3), 16)) == o1
    ensures LowByte(ShiftRight(PackSigned(o0, o1, o2, o3), 8)) == o2
    ensures LowByte(PackSigned(o0, o1, o2, o3)) == o3
  {
    Pow2Values();
    ShiftedOctets(o0, o1, o2, o3);
    var v := PackSigned(o0, o1, o2, o3);
    var sign: int := if o0 >= 128 then -1 else 0;
    assert v == sign * 0x1_0000_0000 + o0 * 0x100_0000 + o1 * 0x1_0000 + o2 * 0x100 + o3;
    assert Pow2(0) == 1;
    ByteAt(v, 0, ((sign * 256 + o0) * 256 + o1) * 256 + o2, o3, 0);
    ByteAt(v, 8, (sign * 256 + o0) * 256 + o1, o2, o3);
    ByteAt(v, 16, sign * 256 + o0, o1, o2 * 0x100 + o3);
    ByteAt(v, 24, sign, o0, o1 * 0x1_0000 + o2 * 0x100 + o3);
    assert ShiftRight(v, 0) == ToInt32(v);
  }

  /** `intToIP` of a signed packing recovers the octets. */
  lemma DecodePacked(o0: nat, o1: nat, o2: nat, o3: nat)
    requires o0 < 256 && o1 < 256 && o2 < 256 && o3 < 256
    ensures IntToIp(PackSigned(o0, o1, o2, o3)) == Dotted(o0, o1, o2, o3)
  {
    BytesOfPacked(o0, o1, o2, o3);
  }

  lemma DecimalOctet(n: nat)
    requires n < 256
    ensures IsOctetText(DecimalText(n))
  {
    DigitsOfDecimal(n);
    if n >= 10 {
      assert DecimalText(n) == DecimalText(n / 10) + [DigitChar(n % 10)];
      if n / 10 >= 10 {
        assert DecimalText(n / 10) == DecimalText(n / 100) + [DigitChar((n / 10) % 10)];
        assert n / 100 < 10;
      }
    }
  }

  /** Text printed by `intToIP` from octets is canonical dotted-quad text. */
  lemma DottedIsQuad(o0: nat, o1: nat, o2: nat, o3: nat)
    requires o0 < 256 && o1 < 256 && o2 < 256 && o3 < 256
    ensures IsDottedQuad(Dotted(o0, o1, o2, o3))
  {
    SplitDotted(o0, o1, o2, o3);
    DecimalOctet(o0);
    DecimalOctet(o1);
    DecimalOctet(o2);
    DecimalOctet(o3);
  }

  lemma JoinFour(parts: seq<string>)
    requires |parts| == 4
    ensures Join(parts) == parts[0] + "." + (parts[1] + "." + (parts[2] + "." + parts[3]))
  {
    assert parts[1..][1..][1..] == [parts[3]];
    assert Join(parts[1..][1..]) == parts[2] + "." + parts[3];
  }

  /** Canonical dotted-quad text is the printing of its four octets. */
  lemma QuadIsDotted(s: string) returns (o0: nat, o1: nat, o2: nat, o3: nat)
    requires IsDottedQuad(s)
    ensures o0 < 256 && o1 < 256 && o2 < 256 && o3 < 256
    ensures s == Dotted(o0, o1, o2, o3)
  {
    var parts := Split(s);
    assert IsOctetText(parts[0]) && IsOctetText(parts[1]) && IsOctetText(parts[2]) && IsOctetText(parts[3]);
    o0, o1, o2, o3 := DigitsValue(parts[0]), DigitsValue(parts[1]), DigitsValue(parts[2]), DigitsValue(parts[3]);
    DecimalOfDigits(parts[0]);
    DecimalOfDigits(parts[1]);
    DecimalOfDigits(parts[2]);
    DecimalOfDigits(parts[3]);
    JoinSplit(s);
    JoinFour(parts);
  }

  /**
   * `ipToInt` of canonical dotted-quad text is the signed packing of its
   * octets, negative exactly when the first octet is 128 or more.
   */
  lemma QuadOctets(s: string) returns (o0: nat, o1: nat, o2: nat, o3: nat)
    requires IsDottedQuad(s)
    ensures o0 < 256 && o1 < 256 && o2 < 256 && o3 < 256
    ensures s == Dotted(o0, o1, o2, o3)
    ensures IpToInt(s) == Some(PackSigned(o0, o1, o2, o3))
    ensures PackSigned(o0, o1, o2, o3) < 0 <==> o0 >= 128
  {
    o0, o1, o2, o3 := QuadIsDotted(s);
    EncodeDotted(o0, o1, o2, o3);
    ShiftedOctets(o0, o1, o2, o3);
  }

  /** `intToIP(ipToInt(s)) == s` for canonical dotted-quad text. */
  lemma DottedQuadRoundTrip(s: string)
    requires IsDottedQuad(s)
    ensures IpToInt(s).Some? && -TwoTo31 <= IpToInt(s).value < TwoTo31
    ensures IntToIp(IpToInt(s).value) == s
  {
    var o0, o1, o2, o3 := QuadOctets(s);
    DecodePacked(o0, o1, o2, o3);
  }

  /** Every signed 32-bit number is the packing of the four bytes of its two's-complement form. */
  lemma {:induction false} SignedOctets(v: int) returns (o0: nat, o1: nat, o2: nat, o3: nat)
    requires -TwoTo31 <= v < TwoTo31
    ensures o0 < 256 && o1 < 256 && o2 < 256 && o3 < 256
    ensures PackSigned(o0, o1, o2, o3) == v
  {
    var u := v % TwoTo32;
    var a := u / 256;
    var b := a / 256;
    o0, o1, o2, o3 := b / 256, b % 256, a % 256, u % 256;
    assert u == a * 256 + o3;
    assert a == b * 256 + o2;
    assert b == o0 * 256 + o1;
    assert u == o0 * 0x100_0000 + o1 * 0x1_0000 + o2 * 0x100 + o3;
    assert a < 0x100_0000 && b < 0x1_0000;
    assert ToInt32(u) == v;
  }

  /** `ipToInt(intToIP(v)) == v` for every signed 32-bit `v`, and the text is canonical. */
  /** Distinct signed 32-bit numbers print as distinct addresses. */
  lemma {:induction false} IntToIpInjective(v: int, w: int)
    requires -TwoTo31 <= v < TwoTo31 && -TwoTo31 <= w < TwoTo31 && v != w
    ensures IntToIp(v) != IntToIp(w)
  {
    NumberRoundTrip(v);
    NumberRoundTrip(w);
  }

  lemma NumberRoundTrip(v: int)
    requires -TwoTo31 <= v < TwoTo31
    ensures IsDottedQuad(IntToIp(v))
    ensures IpToInt(IntToIp(v)) == Some(v)
  {
    var o0, o1, o2, o3 := SignedOctets(v);
    DecodePacked(o0, o1, o2, o3);
    EncodeDotted(o0, o1, o2, o3);
    DottedIsQuad(o0, o1, o2, o3);
  }

  /** Distinct canonical addresses have distinct codes. */
  lemma CodeInjective(s: string, t: string)
    requires IsDottedQuad(s) && IsDottedQuad(t)
    requires IpToInt(s) == IpToInt(t)
    ensures s == t
  {
    DottedQuadRoundTrip(s);
    DottedQuadRoundTrip(t);
  }
}
