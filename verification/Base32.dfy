/** Lower-case base32 without padding (section 6 of RFC 4648), and the browser's
    encoder with its 32-bit accumulator that is never masked. */
module Base32 {
  import opened Bytes

  type Bit = b: int | 0 <= b < 2

  const ALPHABET: string := "abcdefghijklmnopqrstuvwxyz234567"

  // ----- bits -----------------------------------------------------------------

  /** The n low bits of v, most significant first. */
  function BitsOf(v: nat, n: nat): (r: seq<Bit>)
    ensures |r| == n
  {
    if n == 0 then [] else BitsOf(v / 2, n - 1) + [v % 2]
  }

  /** The number whose binary digits are the bits. */
  function ValueOf(bits: seq<Bit>): nat {
    if |bits| == 0 then 0 else 2 * ValueOf(bits[..|bits| - 1]) + bits[|bits| - 1]
  }

  function Stream(bytes: seq<Byte>): (r: seq<Bit>)
    ensures |r| == 8 * |bytes|
  {
    if |bytes| == 0 then [] else Stream(bytes[..|bytes| - 1]) + BitsOf(bytes[|bytes| - 1], 8)
  }

  function Zeros(n: nat): (r: seq<Bit>)
    ensures |r| == n
  {
    seq(n, _ => 0)
  }

  // ----- the reference ------------------------------------------------------------

  /** The bits, with zero bits added to a multiple of five. */
  function Padded(bits: seq<Bit>): (r: seq<Bit>)
    ensures |r| % 5 == 0 && bits <= r && |r| < |bits| + 5
  {
    bits + Zeros((5 - |bits| % 5) % 5)
  }

  lemma {:induction false} ValueBelow(bits: seq<Bit>)
    requires |bits| == 5
    ensures ValueOf(bits) < 32
  {
    var a, b, c, d := bits[..4], bits[..3], bits[..2], bits[..1];
    assert a[..3] == b && b[..2] == c && c[..1] == d && d[..0] == [];
    assert ValueOf(d) < 2;
    assert ValueOf(c) < 4;
    assert ValueOf(b) < 8;
    assert ValueOf(a) < 16;
  }

  function Letter(group: seq<Bit>): char
    requires |group| == 5
  {
    ValueBelow(group);
    ALPHABET[ValueOf(group)]
  }

  /** One letter for each group of five bits. */
  function Letters(bits: seq<Bit>): (r: string)
    requires |bits| % 5 == 0
    ensures 5 * |r| == |bits|
  {
    if |bits| == 0 then ""
    else Letters(bits[..|bits| - 5]) + [Letter(bits[|bits| - 5..])]
  }

  function Encoding(bytes: seq<Byte>): string {
    Letters(Padded(Stream(bytes)))
  }

  // ----- the encoder ----------------------------------------------------------------

  const TWO_32: int := 0x1_0000_0000

  /** JavaScript's ToInt32: the signed number of the low 32 bits. */
  function ToInt32(x: int): (r: int)
    ensures -0x8000_0000 <= r < 0x8000_0000
    ensures r % TWO_32 == x % TWO_32
  {
    var u := x % TWO_32;
    if u >= 0x8000_0000 then u - TWO_32 else u
  }

  function Pow2(n: nat): nat
    requires n <= 8
  {
    if n == 0 then 1 else if n == 1 then 2 else if n == 2 then 4 else if n == 3 then 8 else if n == 4 then 16
    else if n == 5 then 32 else if n == 6 then 64 else if n == 7 then 128 else 256
  }

  /** (value << 8) | byte; the shift leaves the low eight bits free. */
  function PushByte(value: int, byte: Byte): int {
    ToInt32(value * 256) + byte
  }

  /** Adding the byte to the shifted value sets its low eight bits, which are
      zero, and no others, as the bitwise or does. */
  lemma {:induction false} PushIsOr(value: int, byte: Byte)
    ensures var shifted := ToInt32(value * 256);
      shifted % 256 == 0 && PushByte(value, byte) % 256 == byte && PushByte(value, byte) / 256 == shifted / 256
  {
    var shifted := ToInt32(value * 256);
    var k := shifted / TWO_32 - value * 256 / TWO_32;
    assert shifted == value * 256 + TWO_32 * k;
    var n := value + 0x100_0000 * k;
    assert shifted == n * 256 + 0;
    DivUnique(shifted, 256, n, 0);
    DivUnique(shifted + byte, 256, n, byte);
  }

  /** (value >>> n) & 31 */
  function Five(value: int, n: nat): (r: nat)
    requires n <= 8
    ensures r < 32
  {
    value % TWO_32 / Pow2(n) % 32
  }

  /** (value << n) & 31 */
  function FiveLeft(value: int, n: nat): (r: nat)
    requires n <= 8
    ensures r < 32
  {
    ToInt32(value * Pow2(n)) % 32
  }

  lemma {:induction false} PowStep(n: nat)
    requires 0 < n <= 8
    ensures Pow2(n) == 2 * Pow2(n - 1)
  {
  }

  lemma {:induction false} DoubleSum(v: int, p: int, c: int, x: int)
    ensures 2 * (v * p + c) + x == v * (2 * p) + (2 * c + x)
  {
    assert 2 * (v * p) == v * (2 * p);
  }

  lemma {:induction false} ValueAppend(a: seq<Bit>, b: seq<Bit>)
    requires |b| <= 8
    ensures ValueOf(a + b) == ValueOf(a) * Pow2(|b|) + ValueOf(b) && ValueOf(b) < Pow2(|b|)
  {
    hide ValueOf;
    hide Pow2;
    if b == [] {
      assert a + b == a;
      NoValue();
    } else {
      var c, x := b[..|b| - 1], b[|b| - 1];
      ValueStep(a + b);
      ValueStep(b);
      PowStep(|b|);
      assert (a + b)[..|a + b| - 1] == a + c;
      ValueAppend(a, c);
      DoubleSum(ValueOf(a), Pow2(|c|), ValueOf(c), x);
    }
  }

  /** The five bits read by the encoder are those of the stream, although the
      accumulator has wrapped around. */
  lemma {:induction false} WindowIsKept(s: seq<Bit>, value: int, bits: nat)
    requires 5 <= bits <= 12 && bits <= |s|
    requires value % TWO_32 == ValueOf(s) % TWO_32
    ensures Five(value, bits - 5) == ValueOf(s[|s| - bits..|s| - bits + 5])
  {
    hide ValueOf;
    var e, k := |s| - bits, bits - 5;
    var a, g, t := s[..e], s[e..e + 5], s[e + 5..];
    assert s == a + g + t;
    ValueAppend(a + g, t);
    ValueAppend(a, g);
    var x := ValueOf(a) * 32 + ValueOf(g);
    ShiftAndMask(x, ValueOf(a), ValueOf(g), ValueOf(t), k, ValueOf(s));
  }

  lemma {:induction false} ShiftAndMask(x: nat, a: nat, g: nat, t: nat, k: nat, n: nat)
    requires k <= 7 && g < 32 && t < Pow2(k) && x == a * 32 + g && n == x * Pow2(k) + t
    ensures n % TWO_32 / Pow2(k) % 32 == g
  {
    var q, v := n / TWO_32, n % TWO_32;
    assert n == TWO_32 * q + v;
    if k == 0 { MaskAt(x, a, g, t, 1, q, v, 0x1_0000_0000); }
    else if k == 1 { MaskAt(x, a, g, t, 2, q, v, 0x8000_0000); }
    else if k == 2 { MaskAt(x, a, g, t, 4, q, v, 0x4000_0000); }
    else if k == 3 { MaskAt(x, a, g, t, 8, q, v, 0x2000_0000); }
    else if k == 4 { MaskAt(x, a, g, t, 16, q, v, 0x1000_0000); }
    else if k == 5 { MaskAt(x, a, g, t, 32, q, v, 0x800_0000); }
    else if k == 6 { MaskAt(x, a, g, t, 64, q, v, 0x400_0000); }
    else { MaskAt(x, a, g, t, 128, q, v, 0x200_0000); }
  }

  lemma {:induction false} MaskAt(x: int, a: int, g: int, t: int, p: int, q: int, v: int, high: int)
    requires p > 0 && 0 <= t < p && 0 <= g < 32 && x == a * 32 + g
    requires p * high == TWO_32 && high % 32 == 0
    requires x * p + t == TWO_32 * q + v
    ensures v / p % 32 == g
  {
    var w := x - high * q;
    assert v == w * p + t by {
      assert (high * q) * p == TWO_32 * q by { assert (high * q) * p == (p * high) * q; }
    }
    assert v / p == w by { DivUnique(v, p, w, t); }
    var h := high / 32;
    assert w == 32 * (a - h * q) + g by { assert high == 32 * h; assert (32 * h) * q == 32 * (h * q); }
    DivUnique(w, 32, a - h * q, g);
  }

  lemma {:induction false} DivUnique(v: int, p: int, w: int, t: int)
    requires p > 0 && 0 <= t < p && v == w * p + t
    ensures v / p == w && v % p == t
  {
    var d, m := v / p, v % p;
    assert v == d * p + m;
    assert (d - w) * p == t - m;
    assert d - w >= 1 ==> (d - w) * p >= p;
    assert d - w <= -1 ==> (d - w) * p <= -p;
  }

  /** The letter for the bits left over at the end. */
  lemma {:induction false} RestIsPadded(s: seq<Bit>, value: int, bits: nat)
    requires 0 < bits < 5 && bits <= |s|
    requires value % TWO_32 == ValueOf(s) % TWO_32
    ensures FiveLeft(value, 5 - bits) == ValueOf(s[|s| - bits..] + Zeros(5 - bits))
  {
    hide ValueOf;
    var a, t := s[..|s| - bits], s[|s| - bits..];
    assert s == a + t;
    ValueAppend(a, t);
    ValueAppend(t, Zeros(5 - bits));
    ZerosAre(5 - bits);
    var p, r := Pow2(5 - bits), Pow2(bits);
    assert p * r == 32;
    LowBits(ToInt32(value * p), value * p);
    LowBits(value, ValueOf(s));
    ShiftedRest(value, ValueOf(s), ValueOf(a), ValueOf(t), p, r);
  }

  lemma {:induction false} ShiftedRest(value: int, n: int, a: int, t: int, p: int, r: int)
    requires p > 0 && r > 0 && p * r == 32 && 0 <= t < r && n == a * r + t && (value - n) % 32 == 0
    ensures (value * p) % 32 == t * p
  {
    var c := (value - n) / 32;
    assert value == n + 32 * c;
    Spread(a, r, t, c, p);
    assert t * p < 32 by { assert (t + 1) * p <= r * p; }
    DivUnique(value * p, 32, a + c * p, t * p);
  }

  lemma {:induction false} Spread(a: int, r: int, t: int, c: int, p: int)
    requires p * r == 32
    ensures (a * r + t + 32 * c) * p == (a + c * p) * 32 + t * p
  {
    assert (a * r) * p == a * (p * r);
    assert (32 * c) * p == 32 * (c * p);
  }

  lemma {:induction false} ZerosAre(n: nat)
    ensures ValueOf(Zeros(n)) == 0
  {
    if n > 0 {
      assert Zeros(n)[..n - 1] == Zeros(n - 1);
      ZerosAre(n - 1);
    }
  }

  lemma {:induction false} LowBits(x: int, y: int)
    requires x % TWO_32 == y % TWO_32
    ensures x % 32 == y % 32 && (x - y) % 32 == 0
  {
    var q := x / TWO_32 - y / TWO_32;
    assert x == y + TWO_32 * q;
    LowFive(x, y, q);
  }

  lemma {:induction false} LowFive(x: int, y: int, q: int)
    requires x == y + 0x1_0000_0000 * q
    ensures x % 32 == y % 32 && (x - y) % 32 == 0
  {
    var d, m := y / 32, y % 32;
    assert y == d * 32 + m;
    var k := d + 0x800_0000 * q;
    assert x == k * 32 + m;
    DivUnique(x, 32, k, m);
    DivUnique(x - y, 32, 0x800_0000 * q, 0);
  }

  /** The accumulator holds the stream, up to the wrap-around, and the letters
      written stand for all of it but the last bits. */
  ghost predicate Packed(out: string, value: int, bits: nat, s: seq<Bit>) {
    && value % TWO_32 == ValueOf(s) % TWO_32
    && 5 * |out| + bits == |s| && out == Letters(s[..|s| - bits])
  }

  /** The encoder computes the encoding. */
  method ToBase32Lower(bytes: seq<Byte>) returns (out: string)
    ensures out == Encoding(bytes)
  {
    hide Packed;
    hide Encoding;
    hide Stream;
    hide Five;
    hide FiveLeft;
    hide PushByte;
    var bits: nat, value := 0, 0;
    out := "";
    StartEmpty(bytes);
    for i := 0 to |bytes|
      invariant bits < 5 && Packed(out, value, bits, Stream(bytes[..i]))
    {
      PushKeeps(bytes, i, out, value, bits);
      value := PushByte(value, bytes[i]);
      bits := bits + 8;
      while bits >= 5
        invariant bits <= 12 && Packed(out, value, bits, Stream(bytes[..i + 1]))
      {
        NextLetterIs(Stream(bytes[..i + 1]), out, value, bits);
        out := out + [ALPHABET[Five(value, bits - 5)]];
        bits := bits - 5;
      }
    }
    assert bytes[..|bytes|] == bytes;
    if bits > 0 {
      LastLetterIs(bytes, out, value, bits);
      out := out + [ALPHABET[FiveLeft(value, 5 - bits)]];
    } else {
      NoRest(bytes, out, value);
    }
  }

  lemma {:induction false} NextLetterIs(s: seq<Bit>, out: string, value: int, bits: nat)
    requires 5 <= bits <= 12 && Packed(out, value, bits, s)
    ensures Packed(out + [ALPHABET[Five(value, bits - 5)]], value, bits - 5, s)
  {
    hide ValueOf;
    hide Letters;
    hide Letter;
    hide Five;
    Fifths(|s| - bits, |out|);
    WindowIsKept(s, value, bits);
    NextLetter(s, |s| - bits);
    LetterIs(s[|s| - bits..|s| - bits + 5]);
  }

  lemma {:induction false} LastLetterIs(bytes: seq<Byte>, out: string, value: int, bits: nat)
    requires 0 < bits < 5 && Packed(out, value, bits, Stream(bytes))
    ensures out + [ALPHABET[FiveLeft(value, 5 - bits)]] == Encoding(bytes)
  {
    hide ValueOf;
    hide Letters;
    hide FiveLeft;
    hide Padded;
    hide Stream;
    hide Letter;
    hide Zeros;
    var s := Stream(bytes);
    Fifths(|s| - bits, |out|);
    RestIsPadded(s, value, bits);
    PadRest(s, bits);
    LetterIs(s[|s| - bits..] + Zeros(5 - bits));
  }

  lemma {:induction false} Fifths(n: int, k: int)
    requires n == 5 * k
    ensures n % 5 == 0
  {
  }

  lemma {:induction false} LetterIs(group: seq<Bit>)
    requires |group| == 5
    ensures ValueOf(group) < 32 && Letter(group) == ALPHABET[ValueOf(group)]
  {
    hide ValueOf;
    ValueBelow(group);
  }

  lemma {:induction false} NoRest(bytes: seq<Byte>, out: string, value: int)
    requires Packed(out, value, 0, Stream(bytes))
    ensures out == Encoding(bytes)
  {
    hide ValueOf;
    hide Letters;
    hide Stream;
    PadNone(Stream(bytes));
  }

  lemma {:induction false} StartEmpty(bytes: seq<Byte>)
    ensures Packed("", 0, 0, Stream(bytes[..0]))
  {
    assert bytes[..0] == [];
  }

  lemma {:induction false} PadNone(s: seq<Bit>)
    requires |s| % 5 == 0
    ensures Padded(s) == s && s[..|s|] == s
  {
  }

  lemma {:induction false} StreamStep(bytes: seq<Byte>, i: nat)
    requires i < |bytes|
    ensures Stream(bytes[..i + 1]) == Stream(bytes[..i]) + BitsOf(bytes[i], 8)
  {
    assert bytes[..i + 1][..i] == bytes[..i];
  }

  /** One more byte in the accumulator. */
  lemma {:induction false} PushKeeps(bytes: seq<Byte>, i: nat, out: string, value: int, bits: nat)
    requires i < |bytes| && Packed(out, value, bits, Stream(bytes[..i]))
    ensures Packed(out, PushByte(value, bytes[i]), bits + 8, Stream(bytes[..i + 1]))
  {
    hide ValueOf;
    hide Stream;
    hide BitsOf;
    hide Letters;
    var s, b := Stream(bytes[..i]), BitsOf(bytes[i], 8);
    StreamStep(bytes, i);
    assert (s + b)[..|s| - bits] == s[..|s| - bits];
    ValueAppend(s, b);
    ByteValue(bytes[i]);
    Congruent(value, ValueOf(s), bytes[i]);
  }

  lemma {:induction false} Congruent(value: int, n: int, byte: int)
    requires value % TWO_32 == n % TWO_32
    ensures (ToInt32(value * 256) + byte) % TWO_32 == (n * 256 + byte) % TWO_32
  {
    var q := value / TWO_32 - n / TWO_32;
    assert value == n + TWO_32 * q;
    var x := ToInt32(value * 256);
    var k := x / TWO_32 - (value * 256) / TWO_32;
    assert x == value * 256 + TWO_32 * k;
    var y := n * 256 + byte;
    assert x + byte == (y / TWO_32 + 256 * q + k) * TWO_32 + y % TWO_32;
    DivUnique(x + byte, TWO_32, y / TWO_32 + 256 * q + k, y % TWO_32);
  }

  lemma {:induction false} BitsValue(v: nat, n: nat)
    requires n <= 8
    ensures ValueOf(BitsOf(v, n)) == v % Pow2(n)
  {
    hide ValueOf;
    if n == 0 {
      NoValue();
    } else {
      BitsValue(v / 2, n - 1);
      var bits := BitsOf(v, n);
      assert bits[..n - 1] == BitsOf(v / 2, n - 1);
      ValueStep(bits);
      assert Pow2(n) == 2 * Pow2(n - 1);
      HalfMod(v, Pow2(n - 1));
    }
  }

  lemma {:induction false} NoValue()
    ensures ValueOf([]) == 0 && Pow2(0) == 1
  {
  }

  lemma {:induction false} HalfMod(v: int, p: int)
    requires p > 0
    ensures v % (2 * p) == 2 * (v / 2 % p) + v % 2
  {
    var w := v / 2;
    var k, m := w / p, w % p;
    assert w == k * p + m;
    assert v == k * (2 * p) + (2 * m + v % 2) by { assert 2 * (k * p) == k * (2 * p); }
    DivUnique(v, 2 * p, k, 2 * m + v % 2);
  }

  lemma {:induction false} ByteValue(byte: Byte)
    ensures ValueOf(BitsOf(byte, 8)) == byte
  {
    BitsValue(byte, 8);
  }

  lemma {:induction false} NextLetter(s: seq<Bit>, e: nat)
    requires e + 5 <= |s| && e % 5 == 0
    ensures Letters(s[..e + 5]) == Letters(s[..e]) + [Letter(s[e..e + 5])]
  {
    var t := s[..e + 5];
    assert t[..e] == s[..e] && t[e..] == s[e..e + 5];
  }

  lemma {:induction false} PadRest(s: seq<Bit>, bits: nat)
    requires 0 < bits < 5 && bits <= |s| && (|s| - bits) % 5 == 0
    ensures Letters(Padded(s)) == Letters(s[..|s| - bits]) + [Letter(s[|s| - bits..] + Zeros(5 - bits))]
  {
    hide Letters;
    hide Letter;
    var t, e := Padded(s), |s| - bits;
    assert |s| % 5 == bits;
    assert t == s + Zeros(5 - bits);
    hide Padded;
    NextLetter(t, e);
    assert t[..e + 5] == t && t[..e] == s[..e] && t[e..e + 5] == s[e..] + Zeros(5 - bits);
  }

  // ----- length and injectivity -----------------------------------------------------

  lemma {:induction false} EncodingLength(bytes: seq<Byte>)
    ensures |Encoding(bytes)| == (8 * |bytes| + 4) / 5
  {
  }

  /** The number a letter stands for. */
  function LetterValue(c: char): int {
    if 'a' <= c <= 'z' then c as int - 'a' as int else c as int - '2' as int + 26
  }

  lemma {:induction false} LetterValueOf(v: nat)
    requires v < 32
    ensures LetterValue(ALPHABET[v]) == v
  {
  }

  lemma {:induction false} ValueStep(a: seq<Bit>)
    requires a != []
    ensures ValueOf(a) == 2 * ValueOf(a[..|a| - 1]) + a[|a| - 1]
  {
  }

  lemma {:induction false} ValueInjective(a: seq<Bit>, b: seq<Bit>)
    requires |a| == |b| && ValueOf(a) == ValueOf(b)
    ensures a == b
  {
    hide ValueOf;
    if a != [] {
      var n := |a| - 1;
      ValueStep(a);
      ValueStep(b);
      assert (ValueOf(a[..n]) - ValueOf(b[..n])) * 2 == b[n] - a[n];
      ValueInjective(a[..n], b[..n]);
      assert a == a[..n] + [a[n]] && b == b[..n] + [b[n]];
    }
  }

  lemma {:induction false} LettersStep(bits: seq<Bit>)
    requires bits != [] && |bits| % 5 == 0
    ensures Letters(bits) == Letters(bits[..|bits| - 5]) + [Letter(bits[|bits| - 5..])]
  {
    hide Letter;
  }

  lemma {:induction false} LetterInjective(a: seq<Bit>, b: seq<Bit>)
    requires |a| == |b| == 5 && Letter(a) == Letter(b)
    ensures a == b
  {
    hide ValueOf;
    hide LetterValue;
    ValueBelow(a);
    ValueBelow(b);
    LetterValueOf(ValueOf(a));
    LetterValueOf(ValueOf(b));
    ValueInjective(a, b);
  }

  lemma {:induction false} LettersInjective(a: seq<Bit>, b: seq<Bit>)
    requires |a| == |b| && |a| % 5 == 0 && Letters(a) == Letters(b)
    ensures a == b
    decreases |a|
  {
    hide Letters;
    hide Letter;
    if a != [] {
      var n := |a| - 5;
      LettersStep(a);
      LettersStep(b);
      var x, y := Letters(a), Letters(b);
      assert x[..|x| - 1] == Letters(a[..n]) && x[|x| - 1] == Letter(a[n..]);
      assert y[..|y| - 1] == Letters(b[..n]) && y[|y| - 1] == Letter(b[n..]);
      LettersInjective(a[..n], b[..n]);
      LetterInjective(a[n..], b[n..]);
      assert a == a[..n] + a[n..] && b == b[..n] + b[n..];
    }
  }

  lemma {:induction false} StreamLast(bytes: seq<Byte>)
    requires bytes != []
    ensures var n := |bytes| - 1;
      Stream(bytes)[..8 * n] == Stream(bytes[..n]) && Stream(bytes)[8 * n..] == BitsOf(bytes[n], 8)
  {
    hide BitsOf;
  }

  lemma {:induction false} StreamInjective(a: seq<Byte>, b: seq<Byte>)
    requires |a| == |b| && Stream(a) == Stream(b)
    ensures a == b
  {
    hide Stream;
    hide BitsOf;
    if a != [] {
      var n := |a| - 1;
      StreamLast(a);
      StreamLast(b);
      StreamInjective(a[..n], b[..n]);
      ByteValue(a[n]);
      ByteValue(b[n]);
      assert a == a[..n] + [a[n]] && b == b[..n] + [b[n]];
    }
  }

  /** Byte strings of the same length have different encodings. */
  lemma {:induction false} EncodingInjective(a: seq<Byte>, b: seq<Byte>)
    requires |a| == |b| && Encoding(a) == Encoding(b)
    ensures a == b
  {
    hide Letters;
    hide Stream;
    LettersInjective(Padded(Stream(a)), Padded(Stream(b)));
    assert Padded(Stream(a))[..8 * |a|] == Stream(a);
    assert Padded(Stream(b))[..8 * |b|] == Stream(b);
    StreamInjective(a, b);
  }
}
