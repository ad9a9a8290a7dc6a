/** IPv4 addresses and CIDR blocks: 32-bit masks, and the intervals they stand for (section 3.1 of RFC 4632). */
module Addressing {
  import opened Text

  const TWO32 := 0x1_0000_0000

  // ---- the operators of the scripts, on the unsigned 32-bit value of their operands ----

  /** k doublings */
  function Doubled(x: nat, k: nat): nat {
    if k == 0 then x else 2 * Doubled(x, k - 1)
  }

  /** k halvings, each dropping the lowest bit */
  function Halved(x: nat, k: nat): nat {
    if k == 0 then x else Halved(x / 2, k - 1)
  }

  function Pow2(k: nat): nat {
    Doubled(1, k)
  }

  /** (x << k) >>> 0: shift counts are taken modulo 32. */
  function ShiftLeft(x: nat, k: nat): nat {
    Doubled(x, k % 32) % TWO32
  }

  /** x >>> k */
  function ShiftRight(x: nat, k: nat): nat {
    Halved(x, k % 32)
  }

  /** (a & b) >>> 0, bit by bit */
  function And(a: nat, b: nat): nat {
    if a == 0 || b == 0 then 0
    else (if a % 2 == 1 && b % 2 == 1 then 1 else 0) + 2 * And(a / 2, b / 2)
  }

  lemma {:induction false} DoubledSum(a: nat, b: nat, k: nat)
    ensures Doubled(a + b, k) == Doubled(a, k) + Doubled(b, k)
    ensures Doubled(a, k) >= a
  {
    if k > 0 {
      DoubledSum(a, b, k - 1);
    }
  }

  lemma DoubledLess(a: nat, b: nat, k: nat)
    ensures a < b <==> Doubled(a, k) < Doubled(b, k)
  {
    if a <= b {
      DoubledSum(a, b - a, k);
      DoubledSum(b - a, 0, k);
    } else {
      DoubledSum(b, a - b, k);
    }
  }

  lemma {:induction false} DoubledTwice(x: nat, a: nat, b: nat)
    ensures Doubled(Doubled(x, a), b) == Doubled(x, a + b)
  {
    if b > 0 {
      DoubledTwice(x, a, b - 1);
    }
  }

  lemma {:induction false} HalvedBounds(n: nat, k: nat)
    ensures Doubled(Halved(n, k), k) <= n < Doubled(Halved(n, k) + 1, k)
  {
    if k > 0 {
      HalvedBounds(n / 2, k - 1);
    }
  }

  /** The k-fold half is the one number whose k-fold double is next below. */
  lemma HalvedIs(n: nat, k: nat, q: nat)
    ensures Doubled(q, k) <= n < Doubled(q + 1, k) <==> Halved(n, k) == q
  {
    HalvedBounds(n, k);
    var h := Halved(n, k);
    if Doubled(q, k) <= n < Doubled(q + 1, k) {
      DoubledLess(q, h + 1, k);
      DoubledLess(h, q + 1, k);
    }
  }

  lemma Doubled8(x: nat)
    ensures Doubled(x, 8) == 256 * x
    ensures Doubled(x, 16) == 65536 * x
    ensures Doubled(x, 24) == 16777216 * x
    ensures Doubled(x, 32) == TWO32 * x
  {
    hide Doubled;
    Doubled4(x);
    Doubled4(16 * x);
    DoubledTwice(x, 4, 4);
    Doubled4(256 * x);
    Doubled4(4096 * x);
    DoubledTwice(256 * x, 4, 4);
    DoubledTwice(x, 8, 8);
    Doubled4(65536 * x);
    Doubled4(1048576 * x);
    DoubledTwice(65536 * x, 4, 4);
    DoubledTwice(x, 16, 8);
    Doubled4(16777216 * x);
    Doubled4(268435456 * x);
    DoubledTwice(16777216 * x, 4, 4);
    DoubledTwice(x, 24, 8);
  }

  lemma Doubled4(x: nat)
    ensures Doubled(x, 4) == 16 * x
  {
    assert Doubled(x, 1) == 2 * Doubled(x, 0);
    assert Doubled(x, 2) == 2 * Doubled(x, 1);
    assert Doubled(x, 3) == 2 * Doubled(x, 2);
    assert Doubled(x, 4) == 2 * Doubled(x, 3);
  }

  /** Masking with the w low bits keeps what lies below the w-th bit. */
  lemma {:induction false} AndLow(n: nat, w: nat)
    ensures Pow2(w) > 0
    ensures And(n, Pow2(w) - 1) == n - Doubled(Halved(n, w), w)
  {
    if w > 0 {
      AndLow(n / 2, w - 1);
      HalvedBounds(n, w);
    }
  }

  lemma AndLowBelow(n: nat, w: nat)
    requires n < Pow2(w)
    ensures And(n, Pow2(w) - 1) == n
  {
    AndLow(n, w);
    DoubledSum(0, 0, w);
    HalvedIs(n, w, 0);
  }

  lemma {:induction false} AndZero(n: nat, h: nat)
    ensures Doubled(0, h) == 0 && And(n, 0) == 0
  {
    if h > 0 {
      AndZero(n, h - 1);
    }
  }

  /** Masking with bits above h low zeros masks the h-fold half. */
  lemma {:induction false} AndHigh(n: nat, m: nat, h: nat)
    ensures And(n, Doubled(m, h)) == Doubled(And(Halved(n, h), m), h)
  {
    if h > 0 {
      AndHigh(n / 2, m, h - 1);
      var half := Doubled(m, h - 1);
      assert Doubled(m, h) == 2 * half;
      AndEven(n, half);
    }
  }

  lemma AndEven(n: nat, half: nat)
    ensures And(n, 2 * half) == 2 * And(n / 2, half)
  {
    assert (2 * half) / 2 == half && (2 * half) % 2 == 0;
  }

  // ---- prefixes ----

  /** What parseCidr returns. */
  datatype Cidr = Cidr(base: nat, bits: nat, mask: nat)

  /** bits ? (~0 << (32 - bits)) >>> 0 : 0 */
  function MaskOf(bits: nat): nat
    requires bits <= 32
  {
    if bits == 0 then 0 else ShiftLeft(TWO32 - 1, 32 - bits)
  }

  function CidrOf(ip: nat, bits: nat): Cidr
    requires bits <= 32
  {
    Cidr(And(ip, MaskOf(bits)), bits, MaskOf(bits))
  }

  predicate Contains(c: Cidr, ip: nat) {
    And(ip, c.mask) == c.base
  }

  /** (n - c.base) >>> 0 */
  function HostId(c: Cidr, ip: nat): nat {
    (ip - c.base) % TWO32
  }

  function Size(c: Cidr): nat
    requires c.bits <= 32
  {
    Pow2(32 - c.bits)
  }

  lemma DoubledWraps(k: nat)
    ensures Doubled(TWO32, k) % TWO32 == 0
  {
    hide Doubled;
    Doubled8(1);
    DoubledTwice(1, 32, k);
    DoubledTwice(1, k, 32);
    Doubled8(Doubled(1, k));
  }

  lemma Pow2Product(bits: nat)
    requires bits <= 32
    ensures Doubled(Pow2(bits), 32 - bits) == TWO32
    ensures 0 < Pow2(bits) <= TWO32 && 0 < Pow2(32 - bits) <= TWO32
  {
    DoubledTwice(1, bits, 32 - bits);
    Doubled8(1);
    DoubledSum(Pow2(bits), 0, 32 - bits);
    DoubledTwice(1, 32 - bits, bits);
    DoubledSum(Pow2(32 - bits), 0, bits);
    DoubledSum(1, 0, bits);
    DoubledSum(1, 0, 32 - bits);
  }

  /** The mask has `bits` ones above 32 - bits zeros. */
  lemma MaskIs(bits: nat)
    requires bits <= 32
    ensures Pow2(bits) > 0 && MaskOf(bits) == TWO32 - Pow2(32 - bits) == Doubled(Pow2(bits) - 1, 32 - bits)
  {
    hide Doubled;
    var h := 32 - bits;
    Pow2Product(bits);
    DoubledSum(Pow2(bits) - 1, 1, h);
    if bits == 0 {
      Doubled8(1);
    } else {
      DoubledSum(TWO32 - 1, 1, h);
      DoubledWraps(h);
      Half32(bits);
      WrapLess(Doubled(TWO32, h), Pow2(h));
    }
  }

  lemma Half32(bits: nat)
    requires 0 < bits <= 32
    ensures Pow2(32 - bits) < TWO32
  {
    Pow2Product(bits - 1);
    assert Pow2(33 - bits) == 2 * Pow2(32 - bits);
    DoubledSum(1, 0, 32 - bits);
  }

  lemma WrapLess(x: nat, p: nat)
    requires x % TWO32 == 0 && 0 < p < TWO32 && p <= x
    ensures (x - p) % TWO32 == TWO32 - p
  {
  }

  /** The base of a block is the address rounded down to a multiple of the block's size. */
  lemma BaseIs(ip: nat, bits: nat)
    requires ip < TWO32 && bits <= 32
    ensures var c, h := CidrOf(ip, bits), 32 - bits;
      && c.base == Doubled(Halved(ip, h), h)
      && Doubled(Halved(ip, h) + 1, h) == c.base + Size(c) <= TWO32
      && c.base <= ip < c.base + Size(c)
  {
    hide Doubled, Halved, And;
    var h := 32 - bits;
    var q := Halved(ip, h);
    MaskIs(bits);
    Pow2Product(bits);
    HalvedBounds(ip, h);
    DoubledSum(q, 1, h);
    AndHigh(ip, Pow2(bits) - 1, h);
    DoubledLess(q, Pow2(bits), h);
    AndLowBelow(q, bits);
    DoubledLess(Pow2(bits), q + 1, h);
  }

  /**
   * The mask test is the interval test, for every prefix length: a block holds
   * the 2^(32-bits) addresses from its base on, and the host id is the place
   * in the block. Outside the block the host id is too large for it.
   */
  lemma MaskRefinesInterval(net: nat, bits: nat, ip: nat)
    requires net < TWO32 && ip < TWO32 && bits <= 32
    ensures var c := CidrOf(net, bits);
      && (Contains(c, ip) <==> c.base <= ip < c.base + Size(c))
      && (Contains(c, ip) <==> HostId(c, ip) < Size(c))
      && (Contains(c, ip) ==> c.base + HostId(c, ip) == ip)
  {
    hide And, MaskOf, Doubled, Halved;
    var c, h := CidrOf(net, bits), 32 - bits;
    BaseIs(net, bits);
    BaseIs(ip, bits);
    var a, b := Halved(net, h), Halved(ip, h);
    HalvedIs(ip, h, a);
    if c.base > ip {
      Wraps(ip - c.base);
    }
  }

  lemma Wraps(d: int)
    requires -TWO32 < d < 0
    ensures d % TWO32 == d + TWO32
  {
  }

  /** Two addresses share a block exactly when their quotients by its size agree. */
  lemma SameBlock(a: nat, b: nat, bits: nat)
    requires a < TWO32 && b < TWO32 && bits <= 32
    ensures Contains(CidrOf(a, bits), b) <==> CidrOf(a, bits) == CidrOf(b, bits)
  {
  }

  // ---- decimal numerals ----

  function DigitChar(d: nat): char
    requires d < 10
  {
    '0' + d as char
  }

  function Decimal(n: nat): string {
    if n < 10 then [DigitChar(n)] else Decimal(n / 10) + [DigitChar(n % 10)]
  }

  /** Number(s) of a numeral. */
  function ValueOf(s: string): nat
    requires All(s, IsDigit)
  {
    if s == "" then 0
    else
      var n := |s| - 1;
      assert IsDigit(s[n]) && All(s[..n], IsDigit);
      10 * ValueOf(s[..n]) + (s[n] - '0') as nat
  }

  predicate NoLeadingZero(s: string) {
    s != "" && (s[0] == '0' ==> |s| == 1)
  }

  lemma {:induction false} DecimalReads(n: nat)
    ensures Numeral(Decimal(n)) && ValueOf(Decimal(n)) == n && NoLeadingZero(Decimal(n))
    ensures n > 0 ==> Decimal(n)[0] != '0'
  {
    if n < 10 {
      assert ValueOf("") == 0;
      assert Decimal(n)[..0] == "";
    } else {
      DecimalReads(n / 10);
      var s, front := Decimal(n), Decimal(n / 10);
      assert s[..|s| - 1] == front;
      assert forall i | 0 <= i < |front| :: s[i] == front[i];
    }
  }

  lemma DecimalStep(n: nat, d: nat)
    requires d < 10
    ensures Decimal(10 * n + d) == (if n == 0 then "" else Decimal(n)) + [DigitChar(d)]
  {
    assert (10 * n + d) / 10 == n && (10 * n + d) % 10 == d;
  }

  lemma ValueStep(s: string)
    requires Numeral(s)
    ensures var n := |s| - 1;
      && All(s[..n], IsDigit) && IsDigit(s[n])
      && ValueOf(s) == 10 * ValueOf(s[..n]) + (s[n] - '0') as nat
      && DigitChar((s[n] - '0') as nat) == s[n]
    ensures ValueOf("") == 0
  {
    assert IsDigit(s[|s| - 1]);
  }

  lemma {:induction false} NumeralPrints(s: string)
    requires Numeral(s) && NoLeadingZero(s)
    ensures Decimal(ValueOf(s)) == s
    ensures s[0] != '0' ==> ValueOf(s) > 0
  {
    hide Decimal, ValueOf;
    ValueStep(s);
    var front := s[..|s| - 1];
    var d := (s[|s| - 1] - '0') as nat;
    assert s == front + [s[|s| - 1]];
    DecimalStep(ValueOf(front), d);
    if front != "" {
      assert front[0] == s[0];
      NumeralPrints(front);
    }
  }

  // ---- addresses ----

  function Octet(s: string): Option<nat> {
    if Numeral(s) && ValueOf(s) < 256 then Some(ValueOf(s)) else None
  }

  function IpToInt(ip: string): Option<nat> {
    var p := Split(ip, '.');
    if |p| == 4 && Octet(p[0]).Some? && Octet(p[1]).Some? && Octet(p[2]).Some? && Octet(p[3]).Some?
    then Some(ShiftLeft(Octet(p[0]).value, 24) + ShiftLeft(Octet(p[1]).value, 16) + ShiftLeft(Octet(p[2]).value, 8) + Octet(p[3]).value)
    else None
  }

  function Octets(n: nat): seq<string> {
    [Decimal(ShiftRight(n, 24)), Decimal(And(ShiftRight(n, 16), 255)), Decimal(And(ShiftRight(n, 8), 255)), Decimal(And(n, 255))]
  }

  function IntToIp(n: nat): string {
    Join(Octets(n), ".")
  }

  /** Four octets without leading zeros. */
  predicate CanonicalIp(ip: string) {
    var p := Split(ip, '.');
    |p| == 4 && forall i | 0 <= i < 4 :: Octet(p[i]).Some? && NoLeadingZero(p[i])
  }

  lemma OctetValues(a: nat, b: nat, c: nat, d: nat)
    requires a < 256 && b < 256 && c < 256 && d < 256
    ensures var n := ShiftLeft(a, 24) + ShiftLeft(b, 16) + ShiftLeft(c, 8) + d;
      && n < TWO32
      && ShiftRight(n, 24) == a && And(ShiftRight(n, 16), 255) == b && And(ShiftRight(n, 8), 255) == c && And(n, 255) == d
      && n == ((a * 256 + b) * 256 + c) * 256 + d
  {
    hide And, Doubled, Halved, ShiftLeft;
    OctetShifts(a, b, c);
    var ab := a * 256 + b;
    var abc := ab * 256 + c;
    var n := abc * 256 + d;
    Doubled8(1);
    Doubled8(a);
    Doubled8(a + 1);
    Doubled8(ab);
    Doubled8(ab + 1);
    Doubled8(abc);
    Doubled8(abc + 1);
    HalvedIs(n, 24, a);
    HalvedIs(n, 16, ab);
    HalvedIs(n, 8, abc);
    HalvedIs(ab, 8, a);
    HalvedIs(abc, 8, ab);
    AndLow(ab, 8);
    AndLow(abc, 8);
    AndLow(n, 8);
  }

  lemma OctetShifts(a: nat, b: nat, c: nat)
    requires a < 256 && b < 256 && c < 256
    ensures ShiftLeft(a, 24) == 16777216 * a && ShiftLeft(b, 16) == 65536 * b && ShiftLeft(c, 8) == 256 * c
  {
    hide Doubled;
    Doubled8(a);
    Doubled8(b);
    Doubled8(c);
  }

  lemma IntSplits(n: nat)
    requires n < TWO32
    ensures var a, b, c, d := ShiftRight(n, 24), And(ShiftRight(n, 16), 255), And(ShiftRight(n, 8), 255), And(n, 255);
      a < 256 && b < 256 && c < 256 && d < 256 && n == ShiftLeft(a, 24) + ShiftLeft(b, 16) + ShiftLeft(c, 8) + d
  {
    hide And, ShiftLeft, ShiftRight;
    var x, d := n / 256, n % 256;
    var y, c := x / 256, x % 256;
    var a, b := y / 256, y % 256;
    OctetValues(a, b, c, d);
  }

  lemma DotFree(s: string)
    requires Numeral(s)
    ensures '.' !in s && '/' !in s
  {
    assert forall i | 0 <= i < |s| :: IsDigit(s[i]);
  }

  lemma OctetsAre(n: nat)
    ensures Split(IntToIp(n), '.') == Octets(n)
    ensures forall o <- Octets(n) :: Numeral(o) && NoLeadingZero(o)
  {
    DecimalReads(ShiftRight(n, 24));
    DecimalReads(And(ShiftRight(n, 16), 255));
    DecimalReads(And(ShiftRight(n, 8), 255));
    DecimalReads(And(n, 255));
    hide Decimal, And, ShiftRight, Numeral, NoLeadingZero;
    forall o | o in Octets(n)
      ensures '.' !in o
    {
      DotFree(o);
    }
    SplitJoin(Octets(n), '.');
  }

  /** Printing a 32-bit address and reading it gives it back. */
  lemma IpRoundTrip(n: nat)
    requires n < TWO32
    ensures IpToInt(IntToIp(n)) == Some(n)
    ensures CanonicalIp(IntToIp(n))
  {
    hide Decimal, And, ShiftRight, ShiftLeft, Split, Join, Numeral, NoLeadingZero;
    OctetsAre(n);
    IntSplits(n);
    DecimalReads(ShiftRight(n, 24));
    DecimalReads(And(ShiftRight(n, 16), 255));
    DecimalReads(And(ShiftRight(n, 8), 255));
    DecimalReads(And(n, 255));
    var os := Octets(n);
    assert os[0] in os && os[1] in os && os[2] in os && os[3] in os;
  }

  lemma IpRange(ip: string)
    ensures IpToInt(ip).Some? ==> IpToInt(ip).value < TWO32
  {
    hide ShiftLeft, Split, Numeral, ValueOf;
    var p := Split(ip, '.');
    if IpToInt(ip).Some? {
      OctetValues(Octet(p[0]).value, Octet(p[1]).value, Octet(p[2]).value, Octet(p[3]).value);
    }
  }

  /** Reading an address and printing it gives it back exactly when it has no leading zeros. */
  lemma CanonicalRoundTrip(ip: string)
    requires IpToInt(ip).Some?
    ensures IntToIp(IpToInt(ip).value) == ip <==> CanonicalIp(ip)
  {
    hide ShiftLeft, ShiftRight, And, Split, Join, Numeral, ValueOf, Decimal, NoLeadingZero;
    IpRange(ip);
    var n := IpToInt(ip).value;
    if IntToIp(n) == ip {
      IpRoundTrip(n);
    }
    if CanonicalIp(ip) {
      var p := Split(ip, '.');
      OctetValues(Octet(p[0]).value, Octet(p[1]).value, Octet(p[2]).value, Octet(p[3]).value);
      assert forall i | 0 <= i < 4 :: NoLeadingZero(p[i]) && Octet(p[i]).Some?;
      NumeralPrints(p[0]);
      NumeralPrints(p[1]);
      NumeralPrints(p[2]);
      NumeralPrints(p[3]);
      assert Octets(n) == [p[0], p[1], p[2], p[3]] == p;
      JoinSplit(ip, '.');
    }
  }

  // ---- block texts ----

  /** /^(\d+\.\d+\.\d+\.\d+)\/(\d{1,2})$/ on the trimmed text */
  function ParseCidr(text: string): Option<Cidr> {
    var halves := Split(Trim(text), '/');
    if |halves| == 2 && Numeral(halves[1]) && |halves[1]| <= 2 && IpToInt(halves[0]).Some? && ValueOf(halves[1]) <= 32
    then Some(CidrOf(IpToInt(halves[0]).value, ValueOf(halves[1])))
    else None
  }

  predicate CidrContains(cidr: string, ip: string) {
    ParseCidr(cidr).Some? && IpToInt(ip).Some? && Contains(ParseCidr(cidr).value, IpToInt(ip).value)
  }

  function HostIdOf(cidr: string, ip: string): (id: Option<nat>)
    ensures CidrContains(cidr, ip) ==> id.Some?
  {
    if ParseCidr(cidr).Some? && IpToInt(ip).Some? then Some(HostId(ParseCidr(cidr).value, IpToInt(ip).value)) else None
  }

  /** A parsed block is that of some address, so its mask and base agree. */
  lemma ParsedCidr(text: string) returns (net: nat, bits: nat)
    requires ParseCidr(text).Some?
    ensures net < TWO32 && bits <= 32 && ParseCidr(text).value == CidrOf(net, bits)
  {
    var halves := Split(Trim(text), '/');
    IpRange(halves[0]);
    net, bits := IpToInt(halves[0]).value, ValueOf(halves[1]);
  }

  function BlockText(n: nat, bits: nat): string {
    IntToIp(n) + "/" + Decimal(bits)
  }

  /** A printed block reads back. */
  lemma BlockTextReads(n: nat, bits: nat)
    requires n < TWO32 && bits <= 32
    ensures ParseCidr(BlockText(n, bits)) == Some(CidrOf(n, bits))
    ensures BlockText(n, bits) != ""
  {
    hide IpToInt, CidrOf, Octets, Trim;
    var ip, b := IntToIp(n), Decimal(bits);
    IpRoundTrip(n);
    DecimalReads(bits);
    assert |b| <= 2;
    DotFree(b);
    IpShape(n);
    SplitConcat(ip, b, '/');
    SplitWhole(ip, '/');
    SplitWhole(b, '/');
    var text := BlockText(n, bits);
    assert text[0] == ip[0] && text[|text| - 1] == b[|b| - 1] && IsDigit(b[|b| - 1]);
    TrimTrimmed(text);
  }

  lemma IpShape(n: nat)
    ensures var ip := IntToIp(n); '/' !in ip && ip != "" && IsDigit(ip[0])
  {
    hide Decimal, And, ShiftRight, Octets, Split, Join;
    OctetsAre(n);
    var os := Octets(n);
    FourOctets(n);
    assert os[0] in os && os[1] in os && os[2] in os && os[3] in os;
    DotFree(os[0]);
    DotFree(os[1]);
    DotFree(os[2]);
    DotFree(os[3]);
    assert IntToIp(n)[0] == os[0][0];
  }

  lemma FourOctets(n: nat)
    ensures var os := Octets(n); |os| == 4 && IntToIp(n) == os[0] + "." + (os[1] + "." + (os[2] + "." + os[3]))
  {
    hide Decimal, And, ShiftRight, Join;
    var os := Octets(n);
    JoinSteps(os, ".");
    JoinSteps(os[1..], ".");
    JoinSteps(os[2..], ".");
    JoinSteps(os[3..], ".");
    assert os[1..][1..] == os[2..] && os[2..][1..] == os[3..];
  }

  // ---- which texts are addresses and blocks ----

  /** One number of an address. */
  predicate IsOctet(s: string) {
    |s| > 0 && (forall i | 0 <= i < |s| :: '0' <= s[i] <= '9') && ValueOf(s) <= 255
  }

  predicate Makes(ip: string, n: nat, a: string, b: string, c: string, d: string) {
    && IsOctet(a) && IsOctet(b) && IsOctet(c) && IsOctet(d)
    && ip == a + "." + (b + "." + (c + "." + d))
    && n == 16777216 * ValueOf(a) + 65536 * ValueOf(b) + 256 * ValueOf(c) + ValueOf(d)
  }

  /** Four numbers with dots between them, and the number they make. */
  ghost predicate IsAddress(ip: string, n: nat) {
    exists a, b, c, d :: Makes(ip, n, a, b, c, d)
  }

  lemma OctetIs(s: string)
    ensures Octet(s).Some? <==> IsOctet(s)
    ensures IsOctet(s) ==> Octet(s) == Some(ValueOf(s)) && Numeral(s)
  {
    hide ValueOf;
    assert Numeral(s) <==> |s| > 0 && forall i | 0 <= i < |s| :: '0' <= s[i] <= '9';
  }

  lemma FourParts(a: string, b: string, c: string, d: string)
    requires '.' !in a && '.' !in b && '.' !in c && '.' !in d
    ensures Split(a + "." + (b + "." + (c + "." + d)), '.') == [a, b, c, d]
  {
    hide Split;
    SplitConcat(c, d, '.');
    SplitConcat(b, c + "." + d, '.');
    SplitConcat(a, b + "." + (c + "." + d), '.');
    SplitWhole(a, '.');
    SplitWhole(b, '.');
    SplitWhole(c, '.');
    SplitWhole(d, '.');
  }

  lemma PartsOfFour(ip: string)
    requires |Split(ip, '.')| == 4
    ensures var p := Split(ip, '.'); ip == p[0] + "." + (p[1] + "." + (p[2] + "." + p[3]))
  {
    hide Split, Join;
    JoinSplit(ip, '.');
    var p := Split(ip, '.');
    JoinSteps(p, ".");
    JoinSteps(p[1..], ".");
    JoinSteps(p[2..], ".");
    JoinSteps(p[3..], ".");
    assert p[1..][1..] == p[2..] && p[2..][1..] == p[3..];
  }

  /** Which texts are read as addresses, and as what. */
  lemma AddressIs(ip: string, n: nat)
    ensures IpToInt(ip) == Some(n) <==> IsAddress(ip, n)
  {
    hide Split, Octet, IsOctet, ShiftLeft, ValueOf, Numeral;
    if IpToInt(ip) == Some(n) {
      var p := Split(ip, '.');
      PartsOfFour(ip);
      OctetIs(p[0]);
      OctetIs(p[1]);
      OctetIs(p[2]);
      OctetIs(p[3]);
      OctetBound(p[0]);
      OctetBound(p[1]);
      OctetBound(p[2]);
      OctetShifts(ValueOf(p[0]), ValueOf(p[1]), ValueOf(p[2]));
      assert Makes(ip, n, p[0], p[1], p[2], p[3]);
    }
    if IsAddress(ip, n) {
      var a, b, c, d :| Makes(ip, n, a, b, c, d);
      OctetIs(a);
      OctetIs(b);
      OctetIs(c);
      OctetIs(d);
      DotFree(a);
      DotFree(b);
      DotFree(c);
      DotFree(d);
      FourParts(a, b, c, d);
      OctetBound(a);
      OctetBound(b);
      OctetBound(c);
      OctetShifts(ValueOf(a), ValueOf(b), ValueOf(c));
    }
  }

  lemma OctetBound(s: string)
    requires IsOctet(s)
    ensures Numeral(s) && All(s, IsDigit) && ValueOf(s) < 256
  {
    hide ValueOf;
    OctetIs(s);
  }

  /** An address, a slash and one or two digits of at most 32, with white space around them at most. */
  ghost predicate IsBlock(text: string, net: nat, bits: nat) {
    exists ip, b ::
      && Trims(text, ip + "/" + b) && IsAddress(ip, net)
      && 1 <= |b| <= 2 && (forall i | 0 <= i < |b| :: '0' <= b[i] <= '9') && bits == ValueOf(b) <= 32
  }

  /** Which texts are read as blocks, and as what. */
  lemma BlockIs(text: string)
    ensures ParseCidr(text).Some? <==> exists net, bits :: IsBlock(text, net, bits)
    ensures forall net, bits :: IsBlock(text, net, bits) ==> ParseCidr(text) == Some(CidrOf(net, bits))
  {
    hide IpToInt, IsAddress, ValueOf, CidrOf, Trims, Trim, Split;
    if ParseCidr(text).Some? {
      var halves := Split(Trim(text), '/');
      TrimIs(text, Trim(text));
      HalvesOf(Trim(text));
      AddressIs(halves[0], IpToInt(halves[0]).value);
      assert IsBlock(text, IpToInt(halves[0]).value, ValueOf(halves[1]));
    }
    forall net, bits | IsBlock(text, net, bits)
      ensures ParseCidr(text) == Some(CidrOf(net, bits))
    {
      var ip, b :|
        && Trims(text, ip + "/" + b) && IsAddress(ip, net)
        && 1 <= |b| <= 2 && (forall i | 0 <= i < |b| :: '0' <= b[i] <= '9') && bits == ValueOf(b) <= 32;
      TrimIs(text, ip + "/" + b);
      AddressIs(ip, net);
      NoSlash(ip, net);
      assert Numeral(b);
      DotFree(b);
      SplitConcat(ip, b, '/');
      SplitWhole(ip, '/');
      SplitWhole(b, '/');
    }
  }

  lemma HalvesOf(t: string)
    requires |Split(t, '/')| == 2
    ensures t == Split(t, '/')[0] + "/" + Split(t, '/')[1]
  {
    hide Split, Join;
    JoinSplit(t, '/');
    JoinSteps(Split(t, '/'), "/");
    JoinSteps(Split(t, '/')[1..], "/");
  }

  lemma NotAcross(x: string, y: string)
    requires '/' !in x && '/' !in y
    ensures '/' !in x + "." + y
  {
  }

  lemma NoSlash(ip: string, n: nat)
    requires IsAddress(ip, n)
    ensures '/' !in ip
  {
    hide IsOctet, ValueOf;
    var a, b, c, d :| Makes(ip, n, a, b, c, d);
    OctetBound(a);
    OctetBound(b);
    OctetBound(c);
    OctetBound(d);
    hide Numeral, All;
    DotFree(a);
    DotFree(b);
    DotFree(c);
    DotFree(d);
    NotAcross(c, d);
    NotAcross(b, c + "." + d);
    NotAcross(a, b + "." + (c + "." + d));
  }
}
