/** 64-bit words and bytes as numbers, with the wrap-around written out. */
module Words {

  const TWO64: int := 0x1_0000_0000_0000_0000
  const TWO63: int := 0x8000_0000_0000_0000

  type u64 = x: int | 0 <= x < 0x1_0000_0000_0000_0000

  type byte = x: int | 0 <= x < 256

  // What is left of x in a 64-bit register.
  function Wrap(x: int): u64 {
    x % 0x1_0000_0000_0000_0000
  }

  lemma WrapWord(x: u64)
    ensures Wrap(x) == x
  {
  }

  // Adding undoes subtracting, and the other way round, in 64 bits.
  lemma WrapAddBack(value: u64, prev: u64)
    ensures Wrap(Wrap(value - prev) + prev) == value
  {
  }

  lemma WrapSubBack(d: u64, prev: u64)
    ensures Wrap(Wrap(d + prev) - prev) == d
  {
  }

  // The two's-complement reading of a word.
  function Signed(w: u64): int {
    if w < TWO63 then w else w - TWO64
  }

  // ---------- Bytes ----------

  function Pow256(n: nat): (p: nat)
    ensures p > 0
  {
    if n == 0 then 1 else 256 * Pow256(n - 1)
  }

  // The number with the given bytes, lowest first.
  function Number(s: seq<byte>): (v: nat)
    ensures v < Pow256(|s|)
  {
    if s == [] then 0 else s[0] + 256 * Number(s[1..])
  }

  // The n lowest bytes of a number, lowest first.
  function Bytes(v: nat, n: nat): (s: seq<byte>)
    ensures |s| == n
  {
    if n == 0 then [] else [v % 256] + Bytes(v / 256, n - 1)
  }

  lemma {:induction false} NumberOfBytes(v: nat, n: nat)
    requires v < Pow256(n)
    ensures Number(Bytes(v, n)) == v
  {
    if n > 0 {
      NumberOfBytes(v / 256, n - 1);
      assert Bytes(v, n)[1..] == Bytes(v / 256, n - 1);
    }
  }

  lemma {:induction false} NumberOfConcat(s: seq<byte>, t: seq<byte>)
    ensures Number(s + t) == Number(s) + Pow256(|s|) * Number(t)
  {
    if s == [] {
      assert s + t == t;
    } else {
      NumberOfConcat(s[1..], t);
      NumberCons(s, t);
      TimesAssoc(Pow256(|s[1..]|), Number(t));
    }
  }

  lemma NumberCons(s: seq<byte>, t: seq<byte>)
    requires s != []
    ensures Number(s + t) == s[0] + 256 * Number(s[1..] + t)
    ensures Number(s) == s[0] + 256 * Number(s[1..])
  {
    assert (s + t)[1..] == s[1..] + t;
  }

  lemma TimesAssoc(p: int, m: int)
    ensures (256 * p) * m == 256 * (p * m)
  {
  }

  // The first bytes of a number that is small enough are all there is of it.
  lemma {:induction false} BytesPrefix(v: nat, m: nat, n: nat)
    requires m <= n
    ensures Bytes(v, n)[..m] == Bytes(v, m)
  {
    if m > 0 {
      BytesPrefix(v / 256, m - 1, n - 1);
      assert Bytes(v, n)[..m] == [v % 256] + Bytes(v / 256, n - 1)[..m - 1];
    }
  }

  // ---------- Shifts and masks, one bit at a time ----------

  function ShiftLeft(v: nat, n: nat): nat {
    if n == 0 then v else 2 * ShiftLeft(v, n - 1)
  }

  function ShiftRight(v: nat, n: nat): (r: nat)
    ensures r <= v
  {
    if n == 0 then v else ShiftRight(v / 2, n - 1)
  }

  // The bits that a and b have in common.
  function And(a: nat, b: nat): (r: nat)
    ensures r <= a
  {
    if a == 0 then 0
    else (if a % 2 == 1 && b % 2 == 1 then 1 else 0) + 2 * And(a / 2, b / 2)
  }

  // The number with the n lowest bits set.
  function Ones(n: nat): nat {
    if n == 0 then 0 else 1 + 2 * Ones(n - 1)
  }

  // The n lowest bits of v.
  function Low(v: nat, n: nat): (r: nat)
    ensures r <= v
  {
    if n == 0 then 0 else v % 2 + 2 * Low(v / 2, n - 1)
  }

  lemma {:induction false} AndOnes(v: nat, n: nat)
    ensures And(v, Ones(n)) == Low(v, n)
    decreases n
  {
    if v == 0 {
      LowOfZero(n);
    } else if n == 0 {
      AndZero(v);
    } else {
      AndOnes(v / 2, n - 1);
    }
  }

  lemma {:induction false} AndZero(v: nat)
    ensures And(v, 0) == 0
  {
    if v > 0 {
      AndZero(v / 2);
    }
  }

  lemma {:induction false} LowOfZero(n: nat)
    ensures Low(0, n) == 0
  {
    if n > 0 {
      LowOfZero(n - 1);
    }
  }

  lemma {:induction false} LowOfShift(v: nat, p: nat, k: nat)
    ensures Low(ShiftRight(v, p), k) == ShiftRight(Low(v, p + k), p)
    decreases p
  {
    if p > 0 {
      LowOfShift(v / 2, p - 1, k);
      assert Low(v, p + k) / 2 == Low(v / 2, p - 1 + k);
    }
  }

  lemma {:induction false} ShiftBack(v: nat, n: nat, m: nat)
    requires n <= m
    ensures ShiftRight(ShiftLeft(v, n), m) == ShiftRight(v, m - n)
    decreases n
  {
    if n > 0 {
      ShiftBack(v, n - 1, m - 1);
      assert ShiftLeft(v, n) / 2 == ShiftLeft(v, n - 1);
    }
  }

  // Eight bits are a byte.
  lemma LowByte(v: nat, k: nat)
    ensures Low(v, k + 8) == v % 256 + 256 * Low(v / 256, k)
  {
    LowNibble(v, k + 4);
    LowNibble(v / 16, k);
  }

  lemma LowNibble(v: nat, k: nat)
    ensures Low(v, k + 4) == v % 16 + 16 * Low(v / 16, k)
  {
    LowPair(v, k + 2);
    LowPair(v / 4, k);
    NibbleSplit(v);
  }

  lemma NibbleSplit(v: nat)
    ensures v % 16 == v % 4 + 4 * (v / 4 % 4) && v / 4 / 4 == v / 16
  {
    var q, r := v / 16, v % 16;
    assert v == 4 * (4 * q + r / 4) + r % 4;
    assert v / 4 == 4 * q + r / 4;
  }

  lemma LowPair(v: nat, k: nat)
    ensures Low(v, k + 2) == v % 4 + 4 * Low(v / 4, k)
  {
    assert Low(v, k + 2) == v % 2 + 2 * Low(v / 2, k + 1);
    assert Low(v / 2, k + 1) == v / 2 % 2 + 2 * Low(v / 2 / 2, k);
    assert v / 2 / 2 == v / 4;
  }

  lemma ShiftByte(v: nat, k: nat)
    ensures ShiftRight(v, k + 8) == ShiftRight(v / 256, k)
  {
    ShiftNibble(v, k + 4);
    ShiftNibble(v / 16, k);
    assert v / 16 / 16 == v / 256;
  }

  lemma ShiftNibble(v: nat, k: nat)
    ensures ShiftRight(v, k + 4) == ShiftRight(v / 16, k)
  {
    assert ShiftRight(v, k + 4) == ShiftRight(v / 2 / 2, k + 2);
    assert v / 2 / 2 == v / 4;
    assert ShiftRight(v / 4, k + 2) == ShiftRight(v / 4 / 2 / 2, k);
    assert v / 4 / 2 / 2 == v / 16;
  }

  lemma SplitNumber(x: nat, b: byte, v: nat)
    requires x == b + 256 * v
    ensures x % 256 == b && x / 256 == v
  {
  }

  lemma NumberSplit(s: seq<byte>)
    requires s != []
    ensures Number(s) % 256 == s[0] && Number(s) / 256 == Number(s[1..])
  {
    SplitNumber(Number(s), s[0], Number(s[1..]));
  }

  // The first bytes of a number are its low bits.
  lemma {:induction false} NumberOfPrefix(s: seq<byte>, n: nat)
    requires n <= |s|
    ensures Number(s[..n]) == Low(Number(s), 8 * n)
  {
    if n > 0 {
      NumberOfPrefix(s[1..], n - 1);
      assert s[..n][1..] == s[1..][..n - 1];
      NumberSplit(s);
      NumberSplit(s[..n]);
      LowByte(Number(s), 8 * (n - 1));
    }
  }

  // A number without bits above the n-th byte fits in n bytes.
  lemma {:induction false} FitsInBytes(v: nat, n: nat)
    ensures ShiftRight(v, 8 * n) == 0 <==> v < Pow256(n)
  {
    if n > 0 {
      FitsInBytes(v / 256, n - 1);
      ShiftByte(v, 8 * (n - 1));
    }
  }

  lemma Pow256Is8()
    ensures Pow256(8) == TWO64
  {
    assert Pow256(4) == 0x1_0000_0000;
    assert Pow256(6) == 0x1_0000_0000_0000;
  }

  lemma OnesBySeven(n: nat)
    ensures Ones(n + 7) == 127 + 128 * Ones(n)
  {
    assert Ones(n + 7) == 3 + 4 * Ones(n + 5);
    assert Ones(n + 5) == 3 + 4 * Ones(n + 3);
    assert Ones(n + 3) == 3 + 4 * Ones(n + 1);
  }

  lemma SmallOnes()
    ensures Ones(7) == 0x7F && Ones(14) == 0x3FFF && Ones(21) == 0x1F_FFFF && Ones(28) == 0xFFF_FFFF
  {
    OnesBySeven(0);
    OnesBySeven(7);
    OnesBySeven(14);
    OnesBySeven(21);
  }

  lemma LargeOnes()
    ensures Ones(35) == 0x7_FFFF_FFFF && Ones(42) == 0x3FF_FFFF_FFFF && Ones(49) == 0x1_FFFF_FFFF_FFFF
    ensures Ones(64) == 0xFFFF_FFFF_FFFF_FFFF
  {
    SmallOnes();
    OnesBySeven(28);
    OnesBySeven(35);
    OnesBySeven(42);
    OnesBySeven(49);
    OnesBySeven(56);
    assert Ones(64) == 1 + 2 * Ones(63);
  }

  // ---------- Zigzag ----------

  // The bits in which a and b differ.
  function Xor(a: nat, b: nat): nat
    decreases a + b
  {
    if a == 0 && b == 0 then 0
    else (if a % 2 != b % 2 then 1 else 0) + 2 * Xor(a / 2, b / 2)
  }

  // A right shift of a 64-bit word that copies the sign bit.
  function ShiftRightSigned(v: u64, n: nat): u64
    decreases n
  {
    if n == 0 then v else ShiftRightSigned(v / 2 + (if v < TWO63 then 0 else TWO63), n - 1)
  }

  lemma {:induction false} XorZero(a: nat)
    ensures Xor(a, 0) == a
  {
    if a > 0 {
      XorZero(a / 2);
    }
  }

  lemma {:induction false} XorOnes(a: nat, n: nat)
    requires a <= Ones(n)
    ensures Xor(a, Ones(n)) == Ones(n) - a
    decreases n
  {
    if n > 0 {
      assert Ones(n) % 2 == 1 && Ones(n) / 2 == Ones(n - 1);
      XorOnes(a / 2, n - 1);
    }
  }

  lemma {:induction false} SignedShiftOfSmall(v: u64, n: nat)
    requires v < TWO63
    ensures ShiftRightSigned(v, n) == ShiftRight(v, n)
    decreases n
  {
    if n > 0 {
      SignedShiftOfSmall(v / 2, n - 1);
    }
  }

  lemma {:induction false} SignedShiftOfLarge(v: u64, n: nat)
    requires v >= TWO63
    ensures ShiftRightSigned(v, n) == TWO64 - 1 - ShiftRight(TWO64 - 1 - v, n)
    decreases n
  {
    if n > 0 {
      assert TWO64 - 1 - (v / 2 + TWO63) == (TWO64 - 1 - v) / 2;
      SignedShiftOfLarge(v / 2 + TWO63, n - 1);
    }
  }

  lemma NothingAboveSign(v: u64)
    requires v < TWO63
    ensures ShiftRight(v, 63) == 0
  {
    Pow256Is8();
    FitsInBytes(2 * v, 8);
    assert ShiftRight(2 * v, 64) == ShiftRight(2 * v / 2, 63);
  }

  // Shifted all the way, only the sign is left, in every bit.
  lemma SignInEveryBit(v: u64)
    ensures ShiftRightSigned(v, 63) == if v < TWO63 then 0 else TWO64 - 1
  {
    if v < TWO63 {
      SignedShiftOfSmall(v, 63);
      NothingAboveSign(v);
    } else {
      SignedShiftOfLarge(v, 63);
      NothingAboveSign(TWO64 - 1 - v);
    }
  }

  lemma FlipAll(v: u64)
    ensures Xor(v, TWO64 - 1) == TWO64 - 1 - v
  {
    LargeOnes();
    XorOnes(v, 64);
  }

  lemma ZigzagBits(val: u64)
    ensures Xor(Wrap(ShiftLeft(val, 1)), ShiftRightSigned(val, 63)) ==
            if val < TWO63 then 2 * val else 2 * (TWO64 - val) - 1
  {
    SignInEveryBit(val);
    var shifted := Wrap(ShiftLeft(val, 1));
    assert ShiftLeft(val, 1) == 2 * val;
    if val < TWO63 {
      XorZero(shifted);
    } else {
      assert shifted == 2 * val - TWO64;
      FlipAll(shifted);
    }
  }

  lemma UnzigzagBits(val: u64)
    ensures Xor(ShiftRight(val, 1), Wrap(0 - And(val, 1))) == if val % 2 == 0 then val / 2 else TWO64 - 1 - val / 2
  {
    AndOnes(val, 1);
    assert ShiftRight(val, 1) == val / 2 && Ones(1) == 1 && Low(val, 1) == val % 2;
    if val % 2 == 0 {
      XorZero(val / 2);
    } else {
      assert Wrap(0 - 1) == TWO64 - 1;
      FlipAll(val / 2);
    }
  }

  // (val << 1) ^ (val >> 63): the sign of a word in two's complement goes to the lowest bit.
  function Zigzag(val: u64): (z: u64)
    ensures z == if val < TWO63 then 2 * val else 2 * (TWO64 - val) - 1
  {
    ZigzagBits(val);
    Xor(Wrap(ShiftLeft(val, 1)), ShiftRightSigned(val, 63))
  }

  // (val >> 1) ^ (0 - (val & 1))
  function Unzigzag(val: u64): (u: u64)
    ensures u == if val % 2 == 0 then val / 2 else TWO64 - 1 - val / 2
  {
    UnzigzagBits(val);
    Xor(ShiftRight(val, 1), Wrap(0 - And(val, 1)))
  }

  // Zigzag and unzigzag undo each other, on every word.
  lemma ZigzagRoundTrip(val: u64)
    ensures Unzigzag(Zigzag(val)) == val
    ensures Zigzag(Unzigzag(val)) == val
  {
  }

  // Zigzag of a value near zero is small.
  lemma ZigzagSmall(val: u64, bound: int)
    requires 0 < bound <= TWO63 && -bound <= Signed(val) < bound
    ensures Zigzag(val) < 2 * bound
  {
  }
}
