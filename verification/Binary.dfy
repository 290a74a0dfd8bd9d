/** Binary strings in rad_util.py: `int2bin`, `bin2int`, `binary_range` and `gray_encode`. */
module Binary {

  function Pow2(n: nat): nat {
    if n == 0 then 1 else 2 * Pow2(n - 1)
  }

  predicate IsBits(s: string) {
    forall k :: 0 <= k < |s| ==> s[k] == '0' || s[k] == '1'
  }

  function Bit(c: char): nat {
    if c == '1' then 1 else 0
  }

  /** `bin2int`: the value of a binary string, most significant digit first. */
  function Bin2Int(s: string): nat {
    if s == "" then 0 else 2 * Bin2Int(s[..|s| - 1]) + Bit(s[|s| - 1])
  }

  /** The `n` lowest binary digits of `k`. */
  function BitString(k: nat, n: nat): (s: string)
    ensures |s| == n && IsBits(s)
  {
    if n == 0 then "" else BitString(k / 2, n - 1) + [if k % 2 == 1 then '1' else '0']
  }

  lemma {:induction false} ValueOfBitString(k: nat, n: nat)
    requires k < Pow2(n)
    ensures Bin2Int(BitString(k, n)) == k
    decreases n
  {
    if n == 0 {
    } else {
      ValueOfBitString(k / 2, n - 1);
    }
  }

  lemma {:induction false} BitStringOfValue(s: string)
    requires IsBits(s)
    ensures Bin2Int(s) < Pow2(|s|) && BitString(Bin2Int(s), |s|) == s
    decreases |s|
  {
    if s == "" {
    } else {
      var front := s[..|s| - 1];
      BitStringOfValue(front);
      assert s == front + [s[|s| - 1]];
    }
  }

  lemma {:induction false} PowSum(a: nat, b: nat)
    ensures Pow2(a + b) == Pow2(a) * Pow2(b)
    decreases b
  {
    hide Pow2;
    Pow2Next(0);
    if b == 0 {
    } else {
      PowSum(a, b - 1);
      Pow2Next(a + (b - 1));
      Pow2Next(b - 1);
      var p, q := Pow2(a), Pow2(b - 1);
      assert p * (2 * q) == 2 * (p * q);
    }
  }

  lemma Regroup(v: nat, p: nat, x: nat, b: nat)
    ensures 2 * (v * p + x) + b == v * (2 * p) + (2 * x + b)
  {
    assert v * (2 * p) == 2 * (v * p);
  }

  lemma {:induction false} ValueSplit(a: string, b: string)
    ensures Bin2Int(a + b) == Bin2Int(a) * Pow2(|b|) + Bin2Int(b)
    decreases |b|
  {
    if b == "" {
      assert a + b == a;
    } else {
      var front := b[..|b| - 1];
      assert (a + b)[..|a + b| - 1] == a + front;
      ValueSplit(a, front);
      assert (a + b)[|a + b| - 1] == b[|b| - 1];
      Regroup(Bin2Int(a), Pow2(|front|), Bin2Int(front), Bit(b[|b| - 1]));
    }
  }

  // ---- int2bin ----

  /** The digits of `hex(i)` for a natural number. */
  function Hex(i: nat): (digits: seq<nat>)
    ensures digits != [] && forall k :: 0 <= k < |digits| ==> digits[k] < 16
  {
    if i < 16 then [i] else Hex(i / 16) + [i % 16]
  }

  /** The `hex2bin` dictionary. */
  function Hex2Bin(d: nat): string
    requires d < 16
  {
    match d
    case 0 => "0000" case 1 => "0001" case 2 => "0010" case 3 => "0011"
    case 4 => "0100" case 5 => "0101" case 6 => "0110" case 7 => "0111"
    case 8 => "1000" case 9 => "1001" case 10 => "1010" case 11 => "1011"
    case 12 => "1100" case 13 => "1101" case 14 => "1110" case _ => "1111"
  }

  function MapDigits(digits: seq<nat>): string
    requires forall k :: 0 <= k < |digits| ==> digits[k] < 16
  {
    if digits == [] then "" else MapDigits(digits[..|digits| - 1]) + Hex2Bin(digits[|digits| - 1])
  }

  function Zeros(n: nat): string {
    seq(n, _ => '0')
  }

  /** The string, or ValueError. */
  datatype Result = Bits(value: string) | ValueError

  function Int2Bin(i: nat, n: nat): Result
    requires n >= 1
  {
    var result := MapDigits(Hex(i));
    var cut := if |result| > n then |result| - n else 0;
    if '1' in result[..cut] then ValueError
    else
      var kept := result[cut..];
      Bits(Zeros(n - |kept|) + kept)
  }

  lemma FourBits(s: string)
    requires |s| == 4
    ensures Bin2Int(s) == 8 * Bit(s[0]) + 4 * Bit(s[1]) + 2 * Bit(s[2]) + Bit(s[3])
  {
    var s3, s2, s1 := s[..3], s[..2], s[..1];
    assert s3[..2] == s2 && s2[..1] == s1 && s1[..0] == "";
    assert Bin2Int(s1) == Bit(s[0]);
    assert Bin2Int(s2) == 2 * Bin2Int(s1) + Bit(s[1]);
    assert Bin2Int(s3) == 2 * Bin2Int(s2) + Bit(s[2]);
  }

  lemma NibbleValue(d: nat)
    requires d < 16
    ensures IsBits(Hex2Bin(d)) && |Hex2Bin(d)| == 4 && Bin2Int(Hex2Bin(d)) == d
  {
    FourBits(Hex2Bin(d));
  }

  lemma {:induction false} MapDigitsValue(i: nat)
    ensures IsBits(MapDigits(Hex(i))) && Bin2Int(MapDigits(Hex(i))) == i
    decreases i
  {
    hide Hex2Bin, Bin2Int, Pow2;
    var digits := Hex(i);
    NibbleValue(i % 16);
    assert MapDigits(digits) == MapDigits(digits[..|digits| - 1]) + Hex2Bin(i % 16);
    if i < 16 {
      assert digits[..|digits| - 1] == [];
      assert MapDigits(digits) == "" + Hex2Bin(i) == Hex2Bin(i);
    } else {
      MapDigitsValue(i / 16);
      assert digits[..|digits| - 1] == Hex(i / 16);
      ValueSplit(MapDigits(Hex(i / 16)), Hex2Bin(i % 16));
      Sixteen();
    }
  }

  lemma Sixteen()
    ensures Pow2(4) == 16
  {
    assert Pow2(1) == 2 && Pow2(2) == 4 && Pow2(3) == 8;
  }

  lemma {:induction false} ZeroValue(s: string)
    requires IsBits(s)
    ensures Bin2Int(s) == 0 <==> '1' !in s
    decreases |s|
  {
    if s == "" {
    } else {
      var front := s[..|s| - 1];
      ZeroValue(front);
      assert s == front + [s[|s| - 1]];
    }
  }

  /** `int2bin` raises exactly when the number does not fit, and else gives `n` digits, which `bin2int` reads back. */
  lemma Int2BinIsBitString(i: nat, n: nat)
    requires n >= 1
    ensures Int2Bin(i, n).ValueError? <==> i >= Pow2(n)
    ensures i < Pow2(n) ==> Int2Bin(i, n) == Bits(BitString(i, n)) && Bin2Int(Int2Bin(i, n).value) == i
  {
    hide MapDigits, Hex, Bin2Int, BitString, Pow2, Zeros;
    var result := MapDigits(Hex(i));
    MapDigitsValue(i);
    var cut := if |result| > n then |result| - n else 0;
    var dropped, kept := result[..cut], result[cut..];
    assert result == dropped + kept && IsBits(dropped) && IsBits(kept);
    ValueSplit(dropped, kept);
    ZeroValue(dropped);
    if '1' in dropped {
      assert |kept| == n;
      AtLeastOnce(Bin2Int(dropped), Pow2(n));
    } else {
      assert Bin2Int(dropped) * Pow2(|kept|) == 0;
      PaddedValue(kept, n);
      assert Int2Bin(i, n) == Bits(Zeros(n - |kept|) + kept);
    }
  }

  lemma PaddedValue(kept: string, n: nat)
    requires IsBits(kept) && |kept| <= n
    ensures var padded := Zeros(n - |kept|) + kept;
            Bin2Int(padded) == Bin2Int(kept) < Pow2(n) && padded == BitString(Bin2Int(kept), n)
  {
    hide Bin2Int, BitString, Pow2;
    var zeros := Zeros(n - |kept|);
    ZeroValue(zeros);
    ValueSplit(zeros, kept);
    assert Bin2Int(zeros) * Pow2(|kept|) == 0;
    BitStringOfValue(zeros + kept);
  }

  lemma AtLeastOnce(a: nat, b: nat)
    requires a >= 1
    ensures a * b >= b
  {
  }

  // ---- binary_range ----

  /** The value of a digit list, least significant digit first. */
  function LowFirst(v: seq<char>): nat {
    if v == [] then 0 else Bit(v[0]) + 2 * LowFirst(v[1..])
  }

  function Reversed(v: seq<char>): string {
    if v == [] then "" else Reversed(v[1..]) + [v[0]]
  }

  lemma {:induction false} ReversedValue(v: seq<char>)
    requires IsBits(v)
    ensures |Reversed(v)| == |v| && IsBits(Reversed(v)) && Bin2Int(Reversed(v)) == LowFirst(v)
    decreases |v|
  {
    if v == [] {
    } else {
      ReversedValue(v[1..]);
      assert Reversed(v)[..|v| - 1] == Reversed(v[1..]);
    }
  }

  lemma {:induction false} SetDigit(v: seq<char>, i: nat, c: char)
    requires i < |v|
    ensures LowFirst(v[i := c]) + Bit(v[i]) * Pow2(i) == LowFirst(v) + Bit(c) * Pow2(i)
    decreases i
  {
    hide Pow2, Bit;
    if i == 0 {
      Pow2Next(0);
    } else {
      assert v[i := c][1..] == v[1..][i - 1 := c];
      SetDigit(v[1..], i - 1, c);
      TimesPow2(Bit(v[i]), i);
      TimesPow2(Bit(c), i);
    }
  }

  lemma TimesPow2(a: nat, i: nat)
    requires i > 0
    ensures a * Pow2(i) == 2 * (a * Pow2(i - 1))
  {
  }

  lemma FlipDigit(v: seq<char>, i: nat, c: char)
    requires i < |v| && ((v[i] == '0' && c == '1') || (v[i] == '1' && c == '0'))
    ensures LowFirst(v[i := c]) == if c == '1' then LowFirst(v) + Pow2(i) else LowFirst(v) - Pow2(i)
  {
    hide LowFirst, Pow2;
    SetDigit(v, i, c);
  }

  lemma Pow2Next(n: nat)
    ensures Pow2(n + 1) == 2 * Pow2(n) && Pow2(0) == 1
  {
  }

  lemma {:induction false} LowFirstZeros(n: nat)
    ensures LowFirst(Zeros(n)) == 0
  {
    if n == 0 {
    } else {
      assert Zeros(n)[1..] == Zeros(n - 1);
      LowFirstZeros(n - 1);
    }
  }

  lemma AllZeros(v: seq<char>)
    requires forall k :: 0 <= k < |v| ==> v[k] == '0'
    ensures IsBits(v) && LowFirst(v) == 0
  {
    assert v == Zeros(|v|);
    LowFirstZeros(|v|);
  }

  lemma LowFirstBound(v: seq<char>)
    requires IsBits(v)
    ensures LowFirst(v) < Pow2(|v|)
  {
    ReversedValue(v);
    BitStringOfValue(Reversed(v));
  }

  /** The inner loop: adds one, the carry running through `toggle`. */
  method Ripple(v: array<char>, toggle: array<int>)
    requires toggle.Length == v.Length + 1 && IsBits(v[..])
    requires toggle[0] == 1 && forall j :: 1 <= j < toggle.Length ==> toggle[j] == 0
    modifies v, toggle
    ensures IsBits(v[..])
    ensures toggle[v.Length] == 0 || toggle[v.Length] == 1
    ensures LowFirst(v[..]) + toggle[v.Length] * Pow2(v.Length) == LowFirst(old(v[..])) + 1
  {
    hide LowFirst, Pow2;
    var bits := v.Length;
    var i := 0;
    Pow2Next(0);
    while i < bits && toggle[i] == 1
      invariant 0 <= i <= bits && IsBits(v[..])
      invariant toggle[i] == 0 || toggle[i] == 1
      invariant forall j :: i < j < toggle.Length ==> toggle[j] == 0
      invariant LowFirst(v[..]) + (if toggle[i] == 1 then Pow2(i) else 0) == LowFirst(old(v[..])) + 1
    {
      ghost var before := v[..];
      if v[i] == '0' {
        v[i] := '1';
        toggle[i + 1] := 0;
      } else {
        v[i] := '0';
        toggle[i + 1] := 1;
      }
      FlipDigit(before, i, v[i]);
      assert v[..] == before[i := v[i]];
      Pow2Next(i);
      i := i + 1;
    }
    assert toggle[bits] * Pow2(bits) == if toggle[bits] == 1 then Pow2(bits) else 0;
  }

  /** Exactly the 2^bits strings of that width, in order: the k-th is what `int2bin(k, bits)` gives. */
  method BinaryRange(bits: nat) returns (l: seq<string>)
    requires bits >= 1
    ensures |l| == Pow2(bits)
    ensures forall k :: 0 <= k < |l| ==> Int2Bin(k, bits) == Bits(l[k])
  {
    hide Pow2, Int2Bin, BitString, Bin2Int, LowFirst, Reversed, IsBits, Zeros;
    l := [];
    var v := new char[bits](_ => '0');
    AllZeros(v[..]);
    var toggle := new int[bits + 1](k => if k == 0 then 1 else 0);
    while toggle[bits] != 1
      invariant v.Length == bits && toggle.Length == bits + 1 && fresh(v) && fresh(toggle) && IsBits(v[..])
      invariant toggle[bits] == 0 || toggle[bits] == 1
      invariant |l| == LowFirst(v[..]) + toggle[bits] * Pow2(bits) <= Pow2(bits)
      invariant forall k :: 0 <= k < |l| ==> k < Pow2(bits) && l[k] == BitString(k, bits)
      decreases Pow2(bits) - |l|
    {
      LowFirstBound(v[..]);
      ReversedValue(v[..]);
      BitStringOfValue(Reversed(v[..]));
      var copy := Reversed(v[..]);
      l := l + [copy];
      toggle := new int[bits + 1](k => if k == 0 then 1 else 0);
      Ripple(v, toggle);
    }
    LowFirstBound(v[..]);
    forall k | 0 <= k < |l| ensures Int2Bin(k, bits) == Bits(l[k]) {
      Int2BinIsBitString(k, bits);
    }
  }

  // ---- gray_encode ----

  /** Bitwise exclusive or. */
  function Xor(a: nat, b: nat): nat {
    if a == 0 && b == 0 then 0 else 2 * Xor(a / 2, b / 2) + (a + b) % 2
  }

  function GrayEncode(i: nat): nat {
    Xor(i, i / 2)
  }

  function OneBits(a: nat): nat {
    if a == 0 then 0 else OneBits(a / 2) + a % 2
  }

  lemma XorHalves(a: nat, b: nat)
    ensures Xor(a, b) / 2 == Xor(a / 2, b / 2) && Xor(a, b) % 2 == (a + b) % 2
  {
  }

  lemma {:induction false} XorSelf(a: nat)
    ensures Xor(a, a) == 0
  {
    if a == 0 {
    } else {
      XorSelf(a / 2);
    }
  }

  function BitAt(x: nat, k: nat): nat {
    if k == 0 then x % 2 else BitAt(x / 2, k - 1)
  }

  lemma {:induction false} XorBits(a: nat, b: nat, k: nat)
    ensures BitAt(Xor(a, b), k) == (BitAt(a, k) + BitAt(b, k)) % 2
    decreases k
  {
    hide Xor;
    XorHalves(a, b);
    if k == 0 {
    } else {
      XorBits(a / 2, b / 2, k - 1);
    }
  }

  /** Each bit of the code tells whether that bit of the number and the next higher one differ. */
  lemma GrayBits(i: nat, k: nat)
    ensures BitAt(GrayEncode(i), k) == (BitAt(i, k) + BitAt(i, k + 1)) % 2
  {
    hide Xor;
    XorBits(i, i / 2, k);
  }

  lemma GrayHalves(i: nat)
    ensures GrayEncode(i) / 2 == GrayEncode(i / 2) && GrayEncode(i) % 2 == (i + i / 2) % 2
  {
    XorHalves(i, i / 2);
  }

  /** Consecutive numbers have codes that differ in exactly one bit. */
  lemma {:induction false} GrayNeighbours(i: nat)
    ensures OneBits(Xor(GrayEncode(i), GrayEncode(i + 1))) == 1
  {
    hide Xor, GrayEncode, OneBits;
    GrayHalves(i);
    GrayHalves(i + 1);
    var a, b := GrayEncode(i), GrayEncode(i + 1);
    XorHalves(a, b);
    NextParity(i, a, b);
    OneBitsHalves(Xor(a, b));
    if i % 2 == 0 {
      XorSelf(GrayEncode(i / 2));
      OneBitsHalves(0);
    } else {
      GrayNeighbours(i / 2);
    }
  }

  lemma NextParity(i: nat, a: nat, b: nat)
    requires a % 2 == (i + i / 2) % 2 && b % 2 == (i + 1 + (i + 1) / 2) % 2
    ensures if i % 2 == 0 then (i + 1) / 2 == i / 2 && (a + b) % 2 == 1
            else (i + 1) / 2 == i / 2 + 1 && (a + b) % 2 == 0
  {
    var h := i / 2;
    if i % 2 == 0 {
      assert (i + 1) / 2 == h;
      ParitySum(a, b, i + h, i + 1 + h);
      assert i + h + (i + 1 + h) == 2 * (i + h) + 1;
      Doubled(i + h);
    } else {
      assert (i + 1) / 2 == h + 1;
      ParitySum(a, b, i + h, i + 1 + (h + 1));
      assert i + h + (i + 1 + (h + 1)) == 2 * (i + h + 1);
      Doubled(i + h + 1);
    }
  }

  lemma ParitySum(a: nat, b: nat, c: nat, d: nat)
    requires a % 2 == c % 2 && b % 2 == d % 2
    ensures (a + b) % 2 == (c + d) % 2
  {
  }

  lemma Doubled(k: nat)
    ensures (2 * k) % 2 == 0 && (2 * k + 1) % 2 == 1
  {
  }

  lemma OneBitsHalves(x: nat)
    ensures OneBits(x) == OneBits(x / 2) + x % 2
    ensures OneBits(0) == 0
  {
  }

  /** The low bit of a number whose Gray code has low bit `g` and whose upper half is `high`. */
  function LowBit(g: nat, high: nat): (b: nat)
    ensures b < 2
  {
    (g + high) % 2
  }

  function GrayDecode(g: nat): nat {
    if g == 0 then 0 else 2 * GrayDecode(g / 2) + LowBit(g, GrayDecode(g / 2))
  }

  lemma {:induction false} DecodeEncode(i: nat)
    ensures GrayDecode(GrayEncode(i)) == i
  {
    hide Xor, GrayEncode, GrayDecode, LowBit;
    GrayHalves(i);
    GrayZero();
    DecodeHalves(GrayEncode(i));
    if i == 0 {
    } else {
      DecodeEncode(i / 2);
      Parity(i, i / 2);
    }
  }

  lemma GrayZero()
    ensures GrayEncode(0) == 0 && GrayDecode(0) == 0
  {
  }

  lemma DecodeHalves(g: nat)
    ensures GrayDecode(g) == 2 * GrayDecode(g / 2) + LowBit(g, GrayDecode(g / 2))
  {
    if g == 0 {
      assert GrayDecode(0) == 0;
    }
  }

  lemma Parity(i: nat, h: nat)
    ensures forall g: nat :: g % 2 == (i + h) % 2 ==> LowBit(g, h) == i % 2
  {
  }

  lemma {:induction false} EncodeDecode(g: nat)
    ensures GrayEncode(GrayDecode(g)) == g
  {
    hide Xor, GrayEncode, GrayDecode, LowBit;
    GrayZero();
    if g == 0 {
    } else {
      EncodeDecode(g / 2);
      DecodeHalves(g);
      GrayHalves(GrayDecode(g));
      LowBitBack(g, GrayDecode(g / 2));
    }
  }

  lemma LowBitBack(g: nat, h: nat)
    ensures (2 * h + LowBit(g, h)) / 2 == h
    ensures ((2 * h + LowBit(g, h)) + h) % 2 == g % 2
  {
  }

  lemma {:induction false} GrayBound(i: nat, n: nat)
    ensures i < Pow2(n) <==> GrayEncode(i) < Pow2(n)
    decreases n
  {
    GrayHalves(i);
    if n == 0 {
      DecodeEncode(i);
      assert GrayDecode(0) == 0;
    } else {
      GrayBound(i / 2, n - 1);
    }
  }

  /** For every width, `gray_encode` maps the numbers below 2^n one to one onto the numbers below 2^n. */
  lemma GrayIsBijection(n: nat, g: nat)
    requires g < Pow2(n)
    ensures exists i :: 0 <= i < Pow2(n) && GrayEncode(i) == g
    ensures forall i, j :: 0 <= i < Pow2(n) && 0 <= j < Pow2(n) && GrayEncode(i) == GrayEncode(j) ==> i == j
    ensures forall i :: 0 <= i < Pow2(n) ==> GrayEncode(i) < Pow2(n)
  {
    var k := GrayDecode(g);
    EncodeDecode(g);
    GrayBound(k, n);
    forall i, j | 0 <= i < Pow2(n) && 0 <= j < Pow2(n) && GrayEncode(i) == GrayEncode(j) ensures i == j {
      DecodeEncode(i);
      DecodeEncode(j);
    }
    forall i | 0 <= i < Pow2(n) ensures GrayEncode(i) < Pow2(n) {
      GrayBound(i, n);
    }
  }
}
