/** Byte strings, little-endian integers, byte reversal and hexadecimal text. */
module Bytes {

  type Byte = x: int | 0 <= x < 256
  type Data = seq<Byte>
  type U32 = x: int | 0 <= x < 0x1_0000_0000
  type U64 = x: int | 0 <= x < 0x1_0000_0000_0000_0000
  type I64 = x: int | -0x8000_0000_0000_0000 <= x < 0x8000_0000_0000_0000

  type Hash256 = s: Data | |s| == 32 witness seq(32, _ => 0)

  /** SHA256D is a parameter of the model: any function to 32-byte strings. */
  type HashFn = Data -> Hash256

  function Min(a: int, b: int): (m: int)
    ensures m <= a && m <= b && (m == a || m == b)
  {
    if a <= b then a else b
  }

  // ---------------------------------------------------------------- little endian

  function Pow256(n: nat): (p: nat)
    ensures p > 0
  {
    if n == 0 then 1 else 256 * Pow256(n - 1)
  }

  /** The low `width` bytes of n, least significant first; a negative n is taken in two's complement. */
  function LE(n: int, width: nat): (s: Data)
    ensures |s| == width
    decreases width
  {
    if width == 0 then [] else [n % 256] + LE(n / 256, width - 1)
  }

  function FromLE(s: Data): (n: nat)
    ensures n < Pow256(|s|)
  {
    if s == [] then 0 else s[0] + 256 * FromLE(s[1..])
  }

  /** n >> (8 * i), arithmetically. */
  function Shr8(n: int, i: nat): int
    decreases i
  {
    if i == 0 then n else Shr8(n / 256, i - 1)
  }

  lemma {:induction false} LESnoc(n: int, i: nat)
    ensures LE(n, i + 1) == LE(n, i) + [Shr8(n, i) % 256]
    decreases i
  {
    if i > 0 {
      LESnoc(n / 256, i - 1);
    }
  }

  lemma {:induction false} FromLESnoc(s: Data, b: Byte)
    ensures FromLE(s + [b]) == FromLE(s) + b * Pow256(|s|)
  {
    if s == [] {
      assert FromLE([b]) == b;
    } else {
      FromLESnoc(s[1..], b);
      assert (s + [b])[1..] == s[1..] + [b];
      assert b * (256 * Pow256(|s| - 1)) == 256 * (b * Pow256(|s| - 1));
    }
  }

  lemma ModStep(n: int, p: nat)
    requires p > 0
    ensures n % (256 * p) == n % 256 + 256 * ((n / 256) % p)
  {
    var q := n / 256;
    var r := n % 256 + 256 * (q % p);
    assert q == p * (q / p) + q % p;
    assert 256 * (p * (q / p)) == (q / p) * (256 * p);
    DivModUnique(n, 256 * p, q / p, r);
  }

  lemma MulGap(a: int, d: nat)
    requires a > 0
    ensures a * d >= d
  {
  }

  lemma DivModUnique(n: int, d: nat, q: int, r: int)
    requires d > 0 && 0 <= r < d && n == q * d + r
    ensures n / d == q && n % d == r
  {
    var q', r' := n / d, n % d;
    assert n == d * q' + r';
    assert q * d - q' * d == (q - q') * d == r' - r;
    if q > q' {
      MulGap(q - q', d);
    } else if q < q' {
      MulGap(q' - q, d);
    }
  }

  lemma {:induction false} FromLEOfLE(n: int, width: nat)
    ensures FromLE(LE(n, width)) == n % Pow256(width)
    decreases width
  {
    if width > 0 {
      FromLEOfLE(n / 256, width - 1);
      ModStep(n, Pow256(width - 1));
    }
  }

  lemma {:induction false} LEOfFromLE(s: Data)
    ensures LE(FromLE(s), |s|) == s
  {
    if s != [] {
      var n, rest := FromLE(s), FromLE(s[1..]);
      LEOfFromLE(s[1..]);
      assert n == s[0] + 256 * rest;
      assert n % 256 == s[0] && n / 256 == rest;
      assert LE(n, |s|) == [s[0]] + LE(rest, |s| - 1);
    }
  }

  lemma {:induction false} FromLEConcat(a: Data, b: Data)
    ensures FromLE(a + b) == FromLE(a) + Pow256(|a|) * FromLE(b)
  {
    if a == [] {
      assert a + b == b;
    } else {
      FromLEConcat(a[1..], b);
      assert (a + b)[1..] == a[1..] + b;
      MulAssoc(256, Pow256(|a| - 1), FromLE(b));
    }
  }

  lemma MulAssoc(a: nat, b: nat, c: nat)
    ensures a * (b * c) == (a * b) * c
  {
  }

  lemma FromLEInjective(a: Data, b: Data)
    requires |a| == |b| && FromLE(a) == FromLE(b)
    ensures a == b
  {
    LEOfFromLE(a);
    LEOfFromLE(b);
  }

  lemma Pow256Values()
    ensures Pow256(1) == 256
    ensures Pow256(2) == 0x1_0000
    ensures Pow256(4) == 0x1_0000_0000
    ensures Pow256(8) == 0x1_0000_0000_0000_0000
  {
  }

  // ---------------------------------------------------------------- reversal and hex

  function Reverse(s: Data): (r: Data)
    ensures |r| == |s|
    ensures forall i :: 0 <= i < |s| ==> r[i] == s[|s| - 1 - i]
  {
    seq(|s|, i requires 0 <= i < |s| => s[|s| - 1 - i])
  }

  lemma ReverseTwice(s: Data)
    ensures Reverse(Reverse(s)) == s
  {
  }

  function HexDigit(v: nat): (c: char)
    requires v < 16
  {
    "0123456789abcdef"[v]
  }

  /** Util::ASCIIToHex: characters that are not hexadecimal digits count as zero. */
  function HexValue(c: char): (v: nat)
    ensures v < 16
  {
    if '0' <= c <= '9' then (c as int) - 48
    else if 'A' <= c <= 'F' then (c as int) - 55
    else if 'a' <= c <= 'f' then (c as int) - 87
    else 0
  }

  lemma HexDigitValue(v: nat)
    requires v < 16
    ensures HexValue(HexDigit(v)) == v
  {
    var _ := "0123456789abcdef";
  }

  /** Upper-case digits count like lower-case ones, and every other character as zero. */
  lemma HexUpperCase(v: nat)
    requires 10 <= v < 16
    ensures HexValue("ABCDEF"[v - 10]) == HexValue(HexDigit(v)) == v
  {
    var _, _ := "ABCDEF", "0123456789abcdef";
  }

  lemma HexOther(c: char)
    ensures HexValue(c) != 0 ==> c in "0123456789abcdefABCDEF"
  {
    var all := "0123456789abcdefABCDEF";
    if HexValue(c) != 0 {
      var v := HexValue(c);
      assert c == all[v] || (v >= 10 && c == all[v + 6]);
    }
  }

  function ToHex(d: Data): (s: string)
    ensures |s| == 2 * |d|
  {
    seq(2 * |d|, i requires 0 <= i < 2 * |d| =>
      HexDigit(if i % 2 == 0 then d[i / 2] / 16 else d[i / 2] % 16))
  }

  function FromHex(s: string): (d: Data)
    ensures |d| == (|s| + 1) / 2
  {
    seq((|s| + 1) / 2, i requires 0 <= i < (|s| + 1) / 2 =>
      16 * HexValue(s[2 * i]) + (if 2 * i + 1 < |s| then HexValue(s[2 * i + 1]) else 0))
  }

  lemma ToHexAt(d: Data, i: nat)
    requires i < |d|
    ensures ToHex(d)[2 * i] == HexDigit(d[i] / 16)
    ensures ToHex(d)[2 * i + 1] == HexDigit(d[i] % 16)
  {
    assert (2 * i) / 2 == i && (2 * i) % 2 == 0;
    assert (2 * i + 1) / 2 == i && (2 * i + 1) % 2 == 1;
  }

  lemma FromHexToHex(d: Data)
    ensures FromHex(ToHex(d)) == d
  {
    var s := ToHex(d);
    assert |FromHex(s)| == |d|;
    forall i | 0 <= i < |d|
      ensures FromHex(s)[i] == d[i]
    {
      ToHexAt(d, i);
      HexDigitValue(d[i] / 16);
      HexDigitValue(d[i] % 16);
    }
  }

  /** Util::BinToASCII. */
  method BinToASCII(data: Data) returns (str: string)
    ensures str == ToHex(data)
  {
    str := "";
    for i := 0 to |data|
      invariant str == ToHex(data)[..2 * i]
    {
      str := str + [HexDigit(data[i] / 16)];
      str := str + [HexDigit(data[i] % 16)];
    }
  }

  /** Util::ASCIIToBin: nibbles are added into a zeroed buffer of half the length, rounded up. */
  method ASCIIToBin(str: string) returns (data: Data)
    ensures data == FromHex(str)
  {
    var buf := new Byte[(|str| + 1) / 2](_ => 0);
    for i := 0 to |str|
      invariant forall k :: 0 <= k < i / 2 ==> buf[k] == FromHex(str)[k]
      invariant i % 2 == 1 ==> buf[i / 2] == 16 * HexValue(str[i - 1])
      invariant forall k :: (i + 1) / 2 <= k < buf.Length ==> buf[k] == 0
    {
      if i % 2 == 1 {
        buf[i / 2] := buf[i / 2] + HexValue(str[i]);
      } else {
        buf[i / 2] := buf[i / 2] + HexValue(str[i]) * 16;
      }
    }
    data := buf[..];
  }

  /** The number a hexadecimal text denotes, most significant digit first. */
  function ParseHex(s: string): nat {
    if s == "" then 0 else 16 * ParseHex(s[..|s| - 1]) + HexValue(s[|s| - 1])
  }

  lemma ToHexSnoc(d: Data, b: Byte)
    ensures ToHex(d + [b]) == ToHex(d) + [HexDigit(b / 16), HexDigit(b % 16)]
  {
    var e := d + [b];
    forall i | 0 <= i < 2 * |e|
      ensures ToHex(e)[i] == (ToHex(d) + [HexDigit(b / 16), HexDigit(b % 16)])[i]
    {
      ToHexAt(e, i / 2);
      if i < 2 * |d| {
        ToHexAt(d, i / 2);
      }
    }
  }

  /** Reading the reversed hash as a big hexadecimal number gives its little-endian value. */
  lemma {:induction false} HexOfReversedHash(h: Data)
    ensures ParseHex(ToHex(Reverse(h))) == FromLE(h)
  {
    if h != [] {
      var b, rest := h[0], ToHex(Reverse(h[1..]));
      HexOfReversedHash(h[1..]);
      assert Reverse(h) == Reverse(h[1..]) + [b];
      ToHexSnoc(Reverse(h[1..]), b);
      var c0, c1 := HexDigit(b / 16), HexDigit(b % 16);
      HexDigitValue(b / 16);
      HexDigitValue(b % 16);
      ParseHexSnoc(rest, c0);
      ParseHexSnoc(rest + [c0], c1);
      assert rest + [c0, c1] == (rest + [c0]) + [c1];
    }
  }

  lemma ParseHexSnoc(s: string, c: char)
    ensures ParseHex(s + [c]) == 16 * ParseHex(s) + HexValue(c)
  {
    assert (s + [c])[..|s|] == s;
  }
}
