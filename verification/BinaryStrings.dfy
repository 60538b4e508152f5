/** Binary strings by way of hexadecimal digits, a ripple counter that enumerates them, and the Gray code. */
module BinaryStrings {

  function Pow2(n: nat): (r: nat)
    ensures r > 0
  {
    if n == 0 then 1 else 2 * Pow2(n - 1)
  }

  function BitChar(b: int): char {
    if b % 2 == 0 then '0' else '1'
  }

  /** The `n` low bits of `i`, the most significant first. */
  function Bits(i: nat, n: nat): string {
    if n == 0 then "" else Bits(i / 2, n - 1) + [BitChar(i)]
  }

  predicate IsBinary(s: string) {
    forall k :: 0 <= k < |s| ==> s[k] == '0' || s[k] == '1'
  }

  /** The number a binary string stands for. */
  function Value(s: string): nat {
    if s == "" then 0 else 2 * Value(s[..|s| - 1]) + if s[|s| - 1] == '1' then 1 else 0
  }

  lemma {:induction false} BitsLength(i: nat, n: nat)
    ensures |Bits(i, n)| == n && IsBinary(Bits(i, n))
  {
    if n > 0 {
      BitsLength(i / 2, n - 1);
    }
  }

  /** Reading back the bits of a number that fits. */
  lemma {:induction false} ValueOfBits(i: nat, n: nat)
    requires i < Pow2(n)
    ensures Value(Bits(i, n)) == i
  {
    if n > 0 {
      ValueOfBits(i / 2, n - 1);
      assert Bits(i, n)[..|Bits(i, n)| - 1] == Bits(i / 2, n - 1);
    }
  }

  // ----- conversion through hexadecimal

  /** The hexadecimal digits of `i`, the most significant first; zero has one digit. */
  function HexDigits(i: nat): seq<nat> {
    if i < 16 then [i] else HexDigits(i / 16) + [i % 16]
  }

  function HexToBin(d: nat): string {
    match d
    case 0 => "0000" case 1 => "0001" case 2 => "0010" case 3 => "0011"
    case 4 => "0100" case 5 => "0101" case 6 => "0110" case 7 => "0111"
    case 8 => "1000" case 9 => "1001" case 10 => "1010" case 11 => "1011"
    case 12 => "1100" case 13 => "1101" case 14 => "1110" case _ => "1111"
  }

  function HexString(digits: seq<nat>): string {
    if digits == [] then "" else HexString(digits[..|digits| - 1]) + HexToBin(digits[|digits| - 1])
  }

  function Zeros(n: nat): string {
    if n == 0 then "" else Zeros(n - 1) + "0"
  }

  datatype BinResult = Binary(s: string) | KeyError | ValueError

  /** A negative number has no digit at the place where its digits are looked up; `n` is the width asked for. */
  function Int2Bin(i: int, n: int): BinResult {
    if i < 0 then KeyError else FitWidth(HexString(HexDigits(i)), n)
  }

  /** How many of `l` leading digits a width drops; one that is not positive says itself how many. */
  function Dropped(l: nat, n: int): (cut: nat)
    ensures cut <= l
  {
    if n > l then 0 else if n > 0 then l - n else if -n > l then l else -n
  }

  /** Drops leading digits, which must be zeros, or adds some, to get `n` digits. */
  function FitWidth(r: string, n: int): BinResult {
    var cut := Dropped(|r|, n);
    if '1' in r[..cut] then ValueError else Binary(Zeros(if |r| - cut <= n then n - (|r| - cut) else 0) + r[cut..])
  }

  /** `i` without its `k` low bits. */
  ghost function Shift(i: nat, k: nat): nat
    decreases k
  {
    if k == 0 then i else Shift(i / 2, k - 1)
  }

  /** The high bits and the low bits. */
  lemma {:induction false} BitsSplit(i: nat, m: nat, k: nat)
    ensures Bits(i, m + k) == Bits(Shift(i, k), m) + Bits(i, k)
    decreases k
  {
    if k > 0 {
      BitsSplit(i / 2, m, k - 1);
      assert Bits(i, m + k) == Bits(i / 2, m + k - 1) + [BitChar(i)];
    }
  }

  lemma {:induction false} ShiftFits(i: nat, m: nat, k: nat)
    requires i < Pow2(m + k)
    ensures Shift(i, k) < Pow2(m) && (Shift(i, k) == 0 <==> i < Pow2(k))
    decreases k
  {
    if k > 0 {
      ShiftFits(i / 2, m, k - 1);
      assert Pow2(m + k) == 2 * Pow2(m + k - 1);
    }
  }

  lemma {:induction false} BitsOfZero(n: nat)
    ensures Bits(0, n) == Zeros(n)
  {
    if n > 0 {
      BitsOfZero(n - 1);
    }
  }

  lemma {:induction false} PowGrows(m: nat, k: nat)
    ensures Pow2(k) <= Pow2(m + k)
    decreases m
  {
    if m > 0 {
      PowGrows(m - 1, k);
    }
  }

  lemma {:induction false} BitsPad(i: nat, m: nat, k: nat)
    requires i < Pow2(k)
    ensures Bits(i, m + k) == Zeros(m) + Bits(i, k)
  {
    PowGrows(m, k);
    BitsSplit(i, m, k);
    ShiftFits(i, m, k);
    BitsOfZero(m);
  }

  lemma {:induction false} NoOneIffZero(i: nat, n: nat)
    requires i < Pow2(n)
    ensures '1' !in Bits(i, n) <==> i == 0
  {
    if n > 0 {
      NoOneIffZero(i / 2, n - 1);
    }
  }

  lemma {:induction false} ShiftFour(i: nat)
    ensures Shift(i, 4) == i / 16
  {
    assert Shift(i, 4) == Shift(i / 2, 3) && Shift(i / 2, 3) == Shift(i / 4, 2) && Shift(i / 4, 2) == Shift(i / 8, 1);
  }

  lemma {:induction false} SameBit(q: nat, r: nat)
    ensures BitChar(2 * q + r) == BitChar(r)
  {
  }

  lemma {:induction false} LowBits(i: nat)
    ensures Bits(i, 4) == Bits(i % 16, 4)
  {
    var q, r := i / 16, i % 16;
    FourBits(i);
    FourBits(r);
    assert i / 8 == 2 * q + r / 8 && i / 4 == 2 * (2 * q) + r / 4;
    assert i / 2 == 2 * (4 * q) + r / 2 && i == 2 * (8 * q) + r;
    SameBit(q, r / 8);
    SameBit(2 * q, r / 4);
    SameBit(4 * q, r / 2);
    SameBit(8 * q, r);
  }

  lemma {:induction false} FourBits(i: nat)
    ensures Bits(i, 4) == [BitChar(i / 8), BitChar(i / 4), BitChar(i / 2), BitChar(i)]
  {
    assert Bits(i / 8, 1) == Bits(i / 16, 0) + [BitChar(i / 8)];
    assert Bits(i / 4, 2) == Bits(i / 8, 1) + [BitChar(i / 4)];
    assert Bits(i / 2, 3) == Bits(i / 4, 2) + [BitChar(i / 2)];
  }

  lemma {:induction false} LowHexIsBits(d: nat)
    requires d < 8
    ensures HexToBin(d) == Bits(d, 4)
  {
    FourBits(d);
  }

  lemma {:induction false} HighHexIsBits(d: nat)
    requires 8 <= d < 16
    ensures HexToBin(d) == Bits(d, 4)
  {
    FourBits(d);
  }

  lemma {:induction false} HexIsBits(d: nat)
    requires d < 16
    ensures HexToBin(d) == Bits(d, 4)
  {
    if d < 8 {
      LowHexIsBits(d);
    } else {
      HighHexIsBits(d);
    }
  }

  lemma {:induction false} HexStringIsBits(i: nat)
    ensures var l := 4 * |HexDigits(i)|; HexString(HexDigits(i)) == Bits(i, l) && i < Pow2(l)
  {
    if i < 16 {
      HexIsBits(i);
      assert HexString([i]) == HexString([]) + HexToBin(i);
      SixteenFold(0);
    } else {
      HexStringIsBits(i / 16);
      HexStep(i, 4 * |HexDigits(i / 16)|);
    }
  }

  lemma {:induction false} HexStep(i: nat, m: nat)
    requires i >= 16 && HexString(HexDigits(i / 16)) == Bits(i / 16, m) && i / 16 < Pow2(m)
    ensures HexString(HexDigits(i)) == Bits(i, m + 4) && i < Pow2(m + 4)
  {
    var d := HexDigits(i);
    assert d[..|d| - 1] == HexDigits(i / 16);
    HexIsBits(i % 16);
    ShiftFour(i);
    LowBits(i);
    BitsSplit(i, m, 4);
    SixteenFold(m);
  }

  lemma {:induction false} SixteenFold(m: nat)
    ensures Pow2(m + 4) == 16 * Pow2(m)
  {
    assert Pow2(m + 4) == 2 * Pow2(m + 3) && Pow2(m + 3) == 2 * Pow2(m + 2) && Pow2(m + 2) == 2 * Pow2(m + 1);
  }

  /** The number of digits returned for a number with `l` binary digits. */
  function Width(l: nat, n: int): nat {
    if n > 0 then n else l - Dropped(l, n)
  }

  lemma {:induction false} PadBits(i: nat, l: nat, n: nat)
    requires l <= n && i < Pow2(l)
    ensures i < Pow2(n) && Bits(i, n) == Zeros(n - l) + Bits(i, l)
  {
    PowGrows(n - l, l);
    BitsPad(i, n - l, l);
  }

  lemma {:induction false} FitWidthOfBits(i: nat, l: nat, n: int)
    requires i < Pow2(l)
    ensures FitWidth(Bits(i, l), n) == if i < Pow2(Width(l, n)) then Binary(Bits(i, Width(l, n))) else ValueError
  {
    var r, cut := Bits(i, l), Dropped(l, n);
    BitsLength(i, l);
    if cut == 0 {
      assert r[..0] == "" && r[0..] == r;
      if n > l {
        PadBits(i, l, n);
      } else {
        assert Zeros(0) + r == r;
      }
    } else {
      CutBits(i, l - cut, l);
      assert Zeros(0) + r[cut..] == r[cut..];
    }
  }

  /** For every width: the digits of a number that fits, and a failure on every other number. */
  lemma {:induction false} Int2BinIs(i: int, n: int)
    ensures i < 0 ==> Int2Bin(i, n) == KeyError
    ensures i >= 0 ==>
              var w := Width(4 * |HexDigits(i)|, n);
              Int2Bin(i, n) == if i < Pow2(w) then Binary(Bits(i, w)) else ValueError
  {
    if i >= 0 {
      HexStringIsBits(i);
      FitWidthOfBits(i, 4 * |HexDigits(i)|, n);
    }
  }

  lemma {:induction false} CutBits(i: nat, n: nat, l: nat)
    requires n < l && i < Pow2(l)
    ensures |Bits(i, l)| == l && Bits(i, l)[l - n..] == Bits(i, n) && |Bits(i, n)| == n
    ensures '1' in Bits(i, l)[..l - n] <==> i >= Pow2(n)
  {
    var high := Shift(i, n);
    BitsSplit(i, l - n, n);
    BitsLength(high, l - n);
    BitsLength(i, n);
    assert Bits(i, l)[..l - n] == Bits(high, l - n);
    ShiftFits(i, l - n, n);
    NoOneIffZero(high, l - n);
  }

  function Bin2Int(s: string): nat
    requires s != "" && IsBinary(s)
  {
    Value(s)
  }

  lemma {:induction false} BinaryRoundTrip(i: nat, n: nat)
    requires n >= 1 && i < Pow2(n)
    ensures Int2Bin(i, n).Binary?
    ensures var s := Int2Bin(i, n).s; s != "" && IsBinary(s) && Bin2Int(s) == i
  {
    Int2BinIs(i, n);
    BitsLength(i, n);
    ValueOfBits(i, n);
  }

  // ----- the ripple counter

  /** The number of a list of bits whose least significant one comes first. */
  ghost function LittleValue(v: seq<char>): nat {
    if v == [] then 0 else (if v[0] == '1' then 1 else 0) + 2 * LittleValue(v[1..])
  }

  function Reverse(v: seq<char>): string {
    if v == [] then "" else Reverse(v[1..]) + [v[0]]
  }

  lemma {:induction false} BitsSnoc(h: nat, c: char, n: nat)
    requires c == '0' || c == '1'
    ensures var i := (if c == '1' then 1 else 0) + 2 * h; Bits(i, n + 1) == Bits(h, n) + [c]
  {
    var b := if c == '1' then 1 else 0;
    assert (b + 2 * h) / 2 == h && BitChar(b + 2 * h) == c;
  }

  lemma {:induction false} ReverseIsBits(v: seq<char>)
    requires IsBinary(v)
    ensures Reverse(v) == Bits(LittleValue(v), |v|) && LittleValue(v) < Pow2(|v|)
  {
    if v != [] {
      var rest := v[1..];
      assert forall k :: 0 <= k < |rest| ==> rest[k] == v[k + 1];
      ReverseIsBits(rest);
      BitsSnoc(LittleValue(rest), v[0], |rest|);
    }
  }

  lemma {:induction false} SetBit(v: seq<char>, i: nat, c: char)
    requires IsBinary(v) && i < |v| && (c == '0' || c == '1') && c != v[i]
    ensures IsBinary(v[i := c])
    ensures LittleValue(v[i := c]) == if c == '1' then LittleValue(v) + Pow2(i) else LittleValue(v) - Pow2(i)
  {
    if i > 0 {
      assert forall k :: 0 <= k < |v| - 1 ==> v[1..][k] == v[k + 1];
      SetBit(v[1..], i - 1, c);
      assert v[i := c][1..] == v[1..][i - 1 := c];
    } else {
      assert v[i := c][1..] == v[1..];
    }
  }

  lemma {:induction false} AllZero(n: nat)
    ensures LittleValue(seq(n, k => '0')) == 0
  {
    if n > 0 {
      AllZero(n - 1);
      assert seq(n, k => '0')[1..] == seq(n - 1, k => '0');
    }
  }

  ghost predicate Listed(l: seq<string>, bits: nat) {
    forall k :: 0 <= k < |l| ==> l[k] == Bits(k, bits)
  }

  lemma {:induction false} ListNext(l: seq<string>, bits: nat, v: seq<char>)
    requires Listed(l, bits) && |v| == bits && IsBinary(v) && |l| == LittleValue(v)
    ensures Listed(l + [Reverse(v)], bits) && |l| < Pow2(bits)
  {
    ReverseIsBits(v);
  }

  lemma {:induction false} ListedAreBinary(l: seq<string>, bits: nat)
    requires bits >= 1 && Listed(l, bits) && |l| <= Pow2(bits)
    ensures forall k :: 0 <= k < |l| ==> Int2Bin(k, bits) == Binary(l[k])
  {
    forall k | 0 <= k < |l| ensures Int2Bin(k, bits) == Binary(l[k]) {
      Int2BinIs(k, bits);
    }
  }

  lemma {:induction false} NextCount(bits: nat, v: seq<char>, carry: int, n: nat)
    requires |v| == bits && IsBinary(v) && 0 <= carry <= 1 && n == LittleValue(v) + carry * Pow2(bits)
    requires n <= Pow2(bits)
    ensures if carry == 1 then n == Pow2(bits) else n == LittleValue(v)
  {
  }

  /** All the strings of the given width in numerical order; none for width 0. */
  method BinaryRange(bits: nat) returns (l: seq<string>)
    ensures bits == 0 ==> l == []
    ensures bits >= 1 ==> |l| == Pow2(bits) && forall k :: 0 <= k < |l| ==> Int2Bin(k, bits) == Binary(l[k])
  {
    l := [];
    var v := seq(bits, k => '0');
    AllZero(bits);
    var toggle := [1] + seq(bits, k => 0);
    while toggle[bits] != 1
      invariant |toggle| == bits + 1 && |v| == bits && IsBinary(v)
      invariant bits == 0 ==> l == [] && toggle[bits] == 1
      invariant bits >= 1 ==> if toggle[bits] == 1 then |l| == Pow2(bits) else |l| == LittleValue(v)
      invariant Listed(l, bits) && |l| <= Pow2(bits)
      decreases Pow2(bits) - |l|
    {
      ListNext(l, bits, v);
      l := l + [Reverse(v)];
      v, toggle := Ripple(bits, v);
      NextCount(bits, v, toggle[bits], |l|);
    }
    if bits >= 1 {
      ListedAreBinary(l, bits);
    }
  }

  /** Adds one: flips bits from the least significant on until one turns from 0 to 1. */
  method Ripple(bits: nat, v0: seq<char>) returns (v: seq<char>, toggle: seq<int>)
    requires |v0| == bits >= 1 && IsBinary(v0)
    ensures |v| == bits && IsBinary(v) && |toggle| == bits + 1 && 0 <= toggle[bits] <= 1
    ensures LittleValue(v) + toggle[bits] * Pow2(bits) == LittleValue(v0) + 1
  {
    v := v0;
    toggle := [1] + seq(bits, k => 0);
    var i := 0;
    while i < bits && toggle[i] == 1
      invariant 0 <= i <= bits && |v| == bits && IsBinary(v) && |toggle| == bits + 1
      invariant 0 <= toggle[i] <= 1 && forall j :: i < j <= bits ==> toggle[j] == 0
      invariant LittleValue(v) + toggle[i] * Pow2(i) == LittleValue(v0) + 1
    {
      if v[i] == '0' {
        SetBit(v, i, '1');
        v := v[i := '1'];
        toggle := toggle[i + 1 := 0];
      } else {
        SetBit(v, i, '0');
        v := v[i := '0'];
        toggle := toggle[i + 1 := 1];
      }
      i := i + 1;
    }
  }

  // ----- the Gray code

  predicate Odd(x: nat) {
    x % 2 == 1
  }

  /** The number with the higher bits `h` and the last bit `b`. */
  function Twice(h: nat, b: bool): (r: nat)
    ensures r / 2 == h && Odd(r) == b
  {
    2 * h + if b then 1 else 0
  }

  lemma {:induction false} TwiceOfHalf(x: nat)
    ensures Twice(x / 2, Odd(x)) == x
  {
  }

  function Xor(a: nat, b: nat): nat {
    if a == 0 && b == 0 then 0 else Twice(Xor(a / 2, b / 2), Odd(a) != Odd(b))
  }

  function GrayEncode(i: nat): nat {
    Xor(i, i / 2)
  }

  /** The same, bit by bit: each bit is compared with the one above it. */
  ghost function Gray(i: nat): nat {
    if i == 0 then 0 else Twice(Gray(i / 2), Odd(i) != Odd(i / 2))
  }

  lemma {:induction false} GrayEncodeIs(i: nat)
    ensures GrayEncode(i) == Gray(i)
  {
    if i > 0 {
      GrayEncodeIs(i / 2);
    }
  }

  /** The inverse: each bit is the sum of the code's bits from the top down to it. */
  ghost function GrayDecode(g: nat): nat {
    if g == 0 then 0
    else
      var high := GrayDecode(g / 2);
      Twice(high, Odd(g) != Odd(high))
  }

  lemma {:induction false} GrayPositive(i: nat)
    requires i > 0
    ensures Gray(i) > 0
  {
    if i > 1 {
      GrayPositive(i / 2);
    } else {
      assert Gray(1) == Twice(Gray(0), true);
    }
  }

  lemma {:induction false} DecodeOfGray(i: nat)
    ensures GrayDecode(Gray(i)) == i
  {
    if i > 0 {
      var h, g := i / 2, Gray(i);
      DecodeOfGray(h);
      GrayPositive(i);
      assert g / 2 == Gray(h) && Odd(g) == (Odd(i) != Odd(h));
      assert GrayDecode(g) == Twice(h, Odd(i));
      TwiceOfHalf(i);
    }
  }

  lemma {:induction false} GrayOfDecode(g: nat)
    ensures Gray(GrayDecode(g)) == g
  {
    if g > 0 {
      var high, d := GrayDecode(g / 2), GrayDecode(g);
      GrayOfDecode(g / 2);
      assert d / 2 == high && Odd(d) == (Odd(g) != Odd(high));
      TwiceOfHalf(g);
      if d != 0 {
        assert Gray(d) == Twice(g / 2, Odd(g));
      }
    }
  }

  lemma {:induction false} GrayFits(i: nat, n: nat)
    requires i < Pow2(n)
    ensures Gray(i) < Pow2(n) && GrayDecode(i) < Pow2(n)
  {
    if n > 0 {
      GrayFits(i / 2, n - 1);
    }
  }

  /** On the numbers of `n` bits the code is one-to-one and onto. */
  lemma {:induction false} GrayIsBijection(n: nat)
    ensures forall i: nat :: i < Pow2(n) ==> GrayEncode(i) < Pow2(n) && GrayDecode(GrayEncode(i)) == i
    ensures forall g: nat :: g < Pow2(n) ==> GrayDecode(g) < Pow2(n) && GrayEncode(GrayDecode(g)) == g
  {
    forall i: nat | i < Pow2(n) ensures GrayEncode(i) < Pow2(n) && GrayDecode(GrayEncode(i)) == i {
      GrayEncodeIs(i);
      GrayFits(i, n);
      DecodeOfGray(i);
    }
    forall g: nat | g < Pow2(n) ensures GrayDecode(g) < Pow2(n) && GrayEncode(GrayDecode(g)) == g {
      GrayEncodeIs(GrayDecode(g));
      GrayFits(g, n);
      GrayOfDecode(g);
    }
  }

  ghost predicate DifferOnlyAt(a: string, b: string, k: nat) {
    && |a| == |b| && k < |a| && a[k] != b[k]
    && forall j :: 0 <= j < |a| && j != k ==> a[j] == b[j]
  }

  lemma {:induction false} BitsOfTwice(h: nat, b: bool, n: nat)
    requires n >= 1
    ensures Bits(Twice(h, b), n) == Bits(h, n - 1) + [if b then '1' else '0'] && |Bits(h, n - 1)| == n - 1
  {
    BitsLength(h, n - 1);
  }

  lemma {:induction false} DifferInLast(h: nat, b: bool, n: nat)
    requires n >= 1
    ensures DifferOnlyAt(Bits(Twice(h, b), n), Bits(Twice(h, !b), n), n - 1)
  {
    BitsOfTwice(h, b, n);
    BitsOfTwice(h, !b, n);
  }

  lemma {:induction false} DifferEarlier(g: nat, h: nat, b: bool, n: nat, k: nat)
    requires n >= 1 && DifferOnlyAt(Bits(g, n - 1), Bits(h, n - 1), k)
    ensures DifferOnlyAt(Bits(Twice(g, b), n), Bits(Twice(h, b), n), k)
  {
    BitsOfTwice(g, b, n);
    BitsOfTwice(h, b, n);
  }

  lemma {:induction false} GrayOfTwice(h: nat, b: bool)
    ensures Gray(Twice(h, b)) == Twice(Gray(h), b != Odd(h))
  {
  }

  lemma {:induction false} Successor(h: nat)
    ensures Twice(h, false) + 1 == Twice(h, true) && Twice(h, true) + 1 == Twice(h + 1, false) && Odd(h + 1) == !Odd(h)
  {
  }

  ghost predicate NextDiffersAt(i: nat, n: nat, k: nat) {
    DifferOnlyAt(Bits(Gray(i), n), Bits(Gray(i + 1), n), k)
  }

  lemma {:induction false} NextOfEven(h: nat, n: nat)
    requires n >= 1
    ensures NextDiffersAt(Twice(h, false), n, n - 1)
  {
    GrayOfTwice(h, false);
    GrayOfTwice(h, true);
    Successor(h);
    DifferInLast(Gray(h), Odd(h), n);
  }

  lemma {:induction false} NextOfOdd(h: nat, n: nat, k: nat)
    requires n >= 1 && NextDiffersAt(h, n - 1, k)
    ensures NextDiffersAt(Twice(h, true), n, k)
  {
    GrayOfTwice(h, true);
    GrayOfTwice(h + 1, false);
    Successor(h);
    DifferEarlier(Gray(h), Gray(h + 1), !Odd(h), n, k);
  }

  lemma {:induction false} HalfFits(i: nat, n: nat)
    requires i + 1 < Pow2(n)
    ensures n >= 1 && (Odd(i) ==> i / 2 + 1 < Pow2(n - 1))
  {
  }

  lemma {:induction false} GrayNext(i: nat, n: nat) returns (k: nat)
    requires i + 1 < Pow2(n)
    ensures NextDiffersAt(i, n, k)
    decreases n
  {
    var h := i / 2;
    TwiceOfHalf(i);
    HalfFits(i, n);
    if Odd(i) {
      k := GrayNext(h, n - 1);
      NextOfOdd(h, n, k);
    } else {
      k := n - 1;
      NextOfEven(h, n);
    }
  }

  /** The strings returned for successive codes differ in exactly one position. */
  lemma {:induction false} GrayNeighbours(i: nat, n: nat) returns (a: string, b: string, k: nat)
    requires i + 1 < Pow2(n)
    ensures Int2Bin(GrayEncode(i), n) == Binary(a) && Int2Bin(GrayEncode(i + 1), n) == Binary(b)
    ensures DifferOnlyAt(a, b, k)
  {
    GrayEncodeIs(i);
    GrayEncodeIs(i + 1);
    GrayFits(i, n);
    GrayFits(i + 1, n);
    k := GrayNext(i, n);
    a, b := Bits(Gray(i), n), Bits(Gray(i + 1), n);
    assert n > 0;
    Int2BinIs(Gray(i), n);
    Int2BinIs(Gray(i + 1), n);
  }
}
