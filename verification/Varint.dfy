/** The variable-length encoding of 64-bit words, and its byte-serial reference decoder. */
module Varint {
  import opened Wrappers
  import opened Words

  // The longest encoding.
  const MAX_SIZE := 9

  // ---------- Trailing zeros ----------

  function TrailingZeros(v: nat): nat
    requires v > 0
  {
    if v % 2 != 0 then 0 else 1 + TrailingZeros(v / 2)
  }

  // Cutting high bits off does not change how a number ends.
  lemma {:induction false} TrailingZerosOfLow(v: nat, n: nat)
    requires Low(v, n) != 0
    ensures v > 0 && TrailingZeros(Low(v, n)) == TrailingZeros(v) < n
    decreases n
  {
    if v % 2 == 0 {
      assert Low(v, n) / 2 == Low(v / 2, n - 1);
      TrailingZerosOfLow(v / 2, n - 1);
    }
  }

  lemma {:induction false} LowOfLow(v: nat, m: nat, n: nat)
    requires m <= n
    ensures Low(Low(v, n), m) == Low(v, m)
    decreases m
  {
    if m > 0 {
      LowOfLow(v / 2, m - 1, n - 1);
      assert Low(v, n) / 2 == Low(v / 2, n - 1);
    }
  }

  lemma LowEight(v: nat)
    ensures Low(v, 8) == v % 256
  {
    LowByte(v, 0);
  }

  // ---------- Decoding ----------

  datatype Decoded = Decoded(advance: nat, value: u64)

  const DECODE_MASKS: seq<int> := [
    0,
    0x0000007F, 0x00003FFF,
    0x001FFFFF, 0x0FFFFFFF,
    0x7_FFFF_FFFF, 0x3FF_FFFF_FFFF,
    0x1_FFFF_FFFF_FFFF, 0xFFFF_FFFF_FFFF_FFFF]

  function Load64(s: seq<byte>): u64
    requires |s| >= 8
  {
    Pow256Is8();
    Number(s[..8])
  }

  // The scan for the lowest set bit is of a 32-bit register.
  lemma ScanOfLowByte(val: nat)
    requires val % 256 != 0
    ensures Low(val, 32) != 0 && TrailingZeros(Low(val, 32)) == TrailingZeros(val) == TrailingZeros(val % 256) < 8
  {
    LowEight(val);
    TrailingZerosOfLow(val, 8);
    LowOfLow(val, 8, 32);
    TrailingZerosOfLow(Low(val, 32), 8);
  }

  function DecodeShort(val: u64): (r: Decoded)
    requires val % 256 != 0
    ensures 1 <= r.advance < MAX_SIZE
  {
    ScanOfLowByte(val);
    var p := TrailingZeros(Low(val, 32)) + 1;
    Decoded(p, And(ShiftRight(val, p), DECODE_MASKS[p]))
  }

  // The branch-free decoder.  It reads nine bytes at most.
  function DecodeUnsigned(s: seq<byte>): (r: Decoded)
    requires |s| >= MAX_SIZE
    ensures 1 <= r.advance <= MAX_SIZE
  {
    var val := Load64(s);
    if val % 256 == 0 then Decoded(9, Load64(s[1..])) else DecodeShort(val)
  }

  // ---------- The byte-serial reference ----------

  // The code of a non-zero first byte: the length of the encoding it begins.
  function Code(first: byte): (p: nat)
    requires first != 0
    ensures 1 <= p <= 8
  {
    ScanOfLowByte(first);
    TrailingZeros(first) + 1
  }

  function Advance(first: byte): (n: nat)
    ensures 1 <= n <= MAX_SIZE && (n == 9 <==> first == 0)
  {
    if first == 0 then 9 else Code(first)
  }

  // The word that the bytes s encode.
  function ValueOf(s: seq<byte>): nat
    requires s != [] && |s| == Advance(s[0])
  {
    if s[0] == 0 then Number(s[1..]) else ShiftRight(Number(s), Code(s[0]))
  }

  lemma {:induction false} Pow256Grows(m: nat, n: nat)
    requires m <= n
    ensures Pow256(m) <= Pow256(n)
  {
    if m < n {
      Pow256Grows(m, n - 1);
    }
  }

  lemma ValueFits(s: seq<byte>)
    requires s != [] && |s| == Advance(s[0])
    ensures ValueOf(s) < TWO64
  {
    Pow256Is8();
    if s[0] != 0 {
      Pow256Grows(|s|, 8);
    }
  }

  // What the bytes s begin with: the encoding of a word, or not enough bytes.
  function Parse(s: seq<byte>): Option<Decoded> {
    if s == [] || |s| < Advance(s[0]) then None
    else
      ValueFits(s[..Advance(s[0])]);
      Some(Decoded(Advance(s[0]), ValueOf(s[..Advance(s[0])])))
  }

  // ---------- The two decoders agree ----------

  lemma MaskEntries()
    ensures DECODE_MASKS[1] == 0x7F && DECODE_MASKS[2] == 0x3FFF && DECODE_MASKS[3] == 0x1F_FFFF
    ensures DECODE_MASKS[4] == 0xFFF_FFFF && DECODE_MASKS[5] == 0x7_FFFF_FFFF && DECODE_MASKS[6] == 0x3FF_FFFF_FFFF
    ensures DECODE_MASKS[7] == 0x1_FFFF_FFFF_FFFF && DECODE_MASKS[8] == 0xFFFF_FFFF_FFFF_FFFF
  {
  }

  // The mask of a code keeps seven bits for each byte.
  lemma MaskIsOnes(p: nat)
    requires 1 <= p <= 7
    ensures DECODE_MASKS[p] == Ones(7 * p)
  {
    SmallOnes();
    LargeOnes();
    MaskEntries();
  }

  lemma FullMask(v: u64)
    ensures And(v, 0xFFFF_FFFF_FFFF_FFFF) == v
  {
    LargeOnes();
    AndOnes(v, 64);
    WordBits(v);
    LowOfSmall(v, 64);
  }

  lemma WordBits(v: u64)
    ensures ShiftRight(v, 64) == 0
  {
    Pow256Is8();
    FitsInBytes(v, 8);
  }

  // A number without bits above the n-th is all in its n lowest bits.
  lemma {:induction false} LowOfSmall(v: nat, n: nat)
    requires ShiftRight(v, n) == 0
    ensures Low(v, n) == v
    decreases n
  {
    if n > 0 {
      LowOfSmall(v / 2, n - 1);
    }
  }

  lemma FirstByte(s: seq<byte>)
    requires |s| >= 8
    ensures Load64(s) % 256 == s[0]
  {
  }

  // Under the code's shift and mask only the first p bytes of a word are seen.
  lemma OnlyFirstBytes(s: seq<byte>, p: nat)
    requires |s| >= 8 && 1 <= p <= 8
    ensures And(ShiftRight(Load64(s), p), DECODE_MASKS[p]) == ShiftRight(Number(s[..p]), p)
  {
    var val := Load64(s);
    NumberOfPrefix(s[..8], p);
    assert s[..8][..p] == s[..p];
    if p == 8 {
      FullMask(ShiftRight(val, p));
    } else {
      MaskIsOnes(p);
      AndOnes(ShiftRight(val, p), 7 * p);
      LowOfShift(val, p, 7 * p);
    }
  }

  lemma ShortAgree(s: seq<byte>)
    requires |s| >= 8 && s[0] != 0
    ensures Load64(s) % 256 != 0
    ensures DecodeShort(Load64(s)).advance == Advance(s[0])
    ensures DecodeShort(Load64(s)).value == ValueOf(s[..Advance(s[0])])
  {
    FirstByte(s);
    ScanOfLowByte(Load64(s));
    OnlyFirstBytes(s, Code(s[0]));
  }

  // Wherever nine bytes can be read, the branch-free decoder gives what the byte-serial one gives.
  lemma DecodersAgree(s: seq<byte>)
    requires |s| >= MAX_SIZE
    ensures Parse(s) == Some(DecodeUnsigned(s))
  {
    FirstByte(s);
    if s[0] == 0 {
      assert s[1..][..8] == s[..9][1..];
    } else {
      ShortAgree(s);
    }
  }

  // What is parsed depends only on the bytes it advances over.
  lemma ParseIsLocal(s: seq<byte>, t: seq<byte>)
    requires Parse(s).Some?
    ensures Parse(s).value.advance <= |s| && Parse(s + t) == Parse(s)
  {
    var n := Parse(s).value.advance;
    assert (s + t)[..n] == s[..n];
  }

  // A prefix that ends before the encoding does holds no word.
  lemma ParseNeedsAll(s: seq<byte>, n: nat)
    requires n <= |s| && Parse(s).Some? && n < Parse(s).value.advance
    ensures Parse(s[..n]) == None
  {
  }

  // ---------- Encoding ----------

  // The position of the highest set bit.
  function Bsr(v: nat): nat
    requires v > 0
  {
    if v / 2 == 0 then 0 else 1 + Bsr(v / 2)
  }

  lemma {:induction false} BsrBelow(v: nat, n: nat)
    requires v > 0
    ensures Bsr(v) < n <==> ShiftRight(v, n) == 0
    decreases n
  {
    if n > 0 {
      if v / 2 == 0 {
        ShiftOfZero(n - 1);
      } else {
        BsrBelow(v / 2, n - 1);
      }
    }
  }

  lemma {:induction false} ShiftOfZero(n: nat)
    ensures ShiftRight(0, n) == 0
  {
    if n > 0 {
      ShiftOfZero(n - 1);
    }
  }

  // The lookup table that tells, for the position of the highest bit, how many zeros to put below
  // the word: its entries as runs of equal values.
  function EncodeBits(bit: nat): nat
    requires bit < 64
  {
    if bit <= 7 then 0
    else if bit <= 14 then 1
    else if bit <= 21 then 2
    else if bit <= 28 then 3
    else if bit <= 35 then 4
    else if bit <= 42 then 5
    else if bit <= 49 then 6
    else if bit <= 56 then 7
    else 8
  }

  // The bytes of an encoding.
  function Encoded(val: u64): (s: seq<byte>)
    ensures 1 <= |s| <= MAX_SIZE
  {
    if ShiftRight(val, 56) != 0 then
      TopByte(val);
      Bytes(Wrap(val * 256), 8) + [ShiftRight(val, 56)]
    else
      var v := 2 * val + 1;
      BsrBelow(v, 57);
      var bits := EncodeBits(Bsr(v));
      Bytes(ShiftLeft(v, bits), 8)[..bits + 1]
  }

  lemma ShiftIsDiv(v: nat)
    ensures ShiftRight(v, 56) == v / Pow256(7)
    ensures Pow256(7) == 0x100_0000_0000_0000
  {
    ShiftByte(v, 48);
    ShiftByte(v / 256, 40);
    ShiftByte(v / 256 / 256, 32);
    ShiftByte(v / 256 / 256 / 256, 24);
    ShiftByte(v / 256 / 256 / 256 / 256, 16);
    ShiftByte(v / 256 / 256 / 256 / 256 / 256, 8);
    ShiftByte(v / 256 / 256 / 256 / 256 / 256 / 256, 0);
    assert Pow256(3) == 0x100_0000;
    assert Pow256(5) == 0x100_0000_0000;
    assert v / 256 / 256 / 256 / 256 / 256 / 256 / 256 == v / 0x100_0000_0000_0000;
  }

  lemma TopByte(val: u64)
    ensures ShiftRight(val, 56) < 256
  {
    ShiftIsDiv(val);
  }

  // How many zeros a word of less than 56 bits gets: seven more bits take one more byte.
  lemma CodeOf(val: u64)
    requires ShiftRight(val, 56) == 0
    ensures var v := 2 * val + 1;
            && Bsr(v) < 57
            && var bits := EncodeBits(Bsr(v));
               && bits <= 7
               && ShiftRight(val, 7 * bits + 7) == 0
               && (bits > 0 ==> ShiftRight(val, 7 * bits) != 0)
  {
    var v := 2 * val + 1;
    assert v / 2 == val;
    BsrBelow(v, 57);
    var bits := EncodeBits(Bsr(v));
    BsrBelow(v, 7 * bits + 8);
    BsrBelow(v, 7 * bits + 1);
  }

  // ---------- Round trip ----------

  lemma {:induction false} ZerosOfShift(v: nat, n: nat)
    requires v % 2 == 1
    ensures ShiftLeft(v, n) > 0 && TrailingZeros(ShiftLeft(v, n)) == n
  {
    if n > 0 {
      ZerosOfShift(v, n - 1);
      assert ShiftLeft(v, n) / 2 == ShiftLeft(v, n - 1);
    }
  }

  lemma {:induction false} LowIsNotZero(v: nat, n: nat)
    requires v > 0 && TrailingZeros(v) < n
    ensures Low(v, n) != 0
    decreases n
  {
    if v % 2 == 0 {
      LowIsNotZero(v / 2, n - 1);
    }
  }

  // A word with n zeros below its lowest bit, in n + 1 bytes: the first byte tells how many.
  lemma TaggedBytes(w: nat, n: nat)
    requires w > 0 && TrailingZeros(w) == n <= 7 && w < Pow256(n + 1)
    ensures var s := Bytes(w, n + 1);
            Number(s) == w && s[0] != 0 && Code(s[0]) == n + 1
  {
    NumberOfBytes(w, n + 1);
    LowIsNotZero(w, 8);
    LowEight(w);
    ScanOfLowByte(w);
  }

  // A word without bits above the (7n + 7)-th fits, tagged with n zeros, in n + 1 bytes.
  lemma TaggedFits(val: nat, n: nat)
    requires ShiftRight(val, 7 * n + 7) == 0
    ensures ShiftLeft(2 * val + 1, n) < Pow256(n + 1)
  {
    var v, w := 2 * val + 1, ShiftLeft(2 * val + 1, n);
    ShiftBack(v, n, 8 * (n + 1));
    assert v / 2 == val;
    assert ShiftRight(v, 7 * n + 8) == ShiftRight(val, 7 * n + 7);
    FitsInBytes(w, n + 1);
  }

  // The bytes of a word below 2^56: their number, and the length their first byte tells.
  lemma ShortEncoding(val: u64)
    requires ShiftRight(val, 56) == 0
    ensures Bsr(2 * val + 1) < 57
    ensures var s, bits := Encoded(val), EncodeBits(Bsr(2 * val + 1));
            && |s| == bits + 1 <= 8
            && Number(s) == ShiftLeft(2 * val + 1, bits)
            && s[0] != 0 && Code(s[0]) == |s|
  {
    hide ShiftRight, Number, TrailingZeros, Bytes;
    CodeOf(val);
    var bits := EncodeBits(Bsr(2 * val + 1));
    var w := ShiftLeft(2 * val + 1, bits);
    BytesPrefix(w, bits + 1, 8);
    TaggedFits(val, bits);
    ZerosOfShift(2 * val + 1, bits);
    TaggedBytes(w, bits);
  }

  lemma ShortRoundTrip(val: u64)
    requires ShiftRight(val, 56) == 0
    ensures var s := Encoded(val); |s| == Advance(s[0]) && ValueOf(s) == val
  {
    ShortEncoding(val);
    var v := 2 * val + 1;
    var bits := EncodeBits(Bsr(v));
    ShiftBack(v, bits, bits + 1);
    assert ShiftRight(v, 1) == v / 2;
  }

  lemma LongRoundTrip(val: u64)
    requires ShiftRight(val, 56) != 0
    ensures var s := Encoded(val); |s| == Advance(s[0]) && ValueOf(s) == val
  {
    ShiftIsDiv(val);
    TopByte(val);
    var low, high := val % 0x100_0000_0000_0000, ShiftRight(val, 56);
    assert Wrap(val * 256) == 256 * low;
    var s := Encoded(val);
    assert s[0] == 0;
    assert s[1..] == Bytes(low, 7) + [high];
    NumberOfConcat(Bytes(low, 7), [high]);
    NumberOfBytes(low, 7);
    assert Number([high]) == high;
  }

  // Every word is read back from its encoding, whatever follows it in memory.
  lemma VarintRoundTrip(val: u64, t: seq<byte>)
    ensures Parse(Encoded(val) + t) == Some(Decoded(|Encoded(val)|, val))
  {
    var s := Encoded(val);
    if ShiftRight(val, 56) == 0 {
      ShortRoundTrip(val);
    } else {
      LongRoundTrip(val);
    }
    assert s[..|s|] == s;
    ParseIsLocal(s, t);
  }

  // The signed decoder: the shift and the flip that undo zigzag, on what the unsigned one finds.
  function DecodeSigned(s: seq<byte>): Decoded
    requires |s| >= MAX_SIZE
  {
    var t := DecodeUnsigned(s);
    UnzigzagBits(t.value);
    Decoded(t.advance, Xor(ShiftRight(t.value, 1), Wrap(0 - And(t.value, 1))))
  }

  lemma SignedIsUnzigzag(s: seq<byte>)
    requires |s| >= MAX_SIZE
    ensures DecodeSigned(s) == Decoded(DecodeUnsigned(s).advance, Unzigzag(DecodeUnsigned(s).value))
  {
    UnzigzagBits(DecodeUnsigned(s).value);
  }

  // A signed value, encoded as its zigzag, is read back whatever follows it.
  lemma SignedRoundTrip(val: u64, t: seq<byte>)
    requires |Encoded(Zigzag(val)) + t| >= MAX_SIZE
    ensures DecodeSigned(Encoded(Zigzag(val)) + t) == Decoded(|Encoded(Zigzag(val))|, val)
  {
    var s := Encoded(Zigzag(val)) + t;
    SignedIsUnzigzag(s);
    assert DecodeUnsigned(s) == Decoded(|Encoded(Zigzag(val))|, Zigzag(val)) by {
      VarintRoundTrip(Zigzag(val), t);
      DecodersAgree(s);
    }
    ZigzagRoundTrip(val);
  }

  // The encoding is the shortest that has room: seven bits of the word for each byte up to eight,
  // else nine bytes.
  lemma EncodingIsShortest(val: u64)
    ensures |Encoded(val)| == 9 <==> ShiftRight(val, 56) != 0
    ensures |Encoded(val)| <= 8 ==> ShiftRight(val, 7 * |Encoded(val)|) == 0
    ensures 1 < |Encoded(val)| <= 8 ==> ShiftRight(val, 7 * (|Encoded(val)| - 1)) != 0
  {
    if ShiftRight(val, 56) == 0 {
      CodeOf(val);
    }
  }

  // ---------- Streams ----------

  function EncodeAll(vals: seq<u64>): seq<byte> {
    if vals == [] then [] else EncodeAll(vals[..|vals| - 1]) + Encoded(vals[|vals| - 1])
  }

  // Reads words until the bytes run out; None if they end inside an encoding.
  function ParseAll(s: seq<byte>): Option<seq<u64>>
    decreases |s|
  {
    if s == [] then Some([])
    else match Parse(s)
      case None => None
      case Some(d) =>
        match ParseAll(s[d.advance..])
        case None => None
        case Some(rest) => Some([d.value] + rest)
  }

  lemma {:induction false} EncodeAllCons(vals: seq<u64>)
    requires vals != []
    ensures EncodeAll(vals) == Encoded(vals[0]) + EncodeAll(vals[1..])
  {
    if |vals| > 1 {
      var n := |vals| - 1;
      EncodeAllCons(vals[..n]);
      assert vals[..n][1..] == vals[1..][..n - 1] && vals[..n][0] == vals[0];
      Assoc(Encoded(vals[0]), EncodeAll(vals[1..][..n - 1]), Encoded(vals[n]));
    } else {
      assert vals[1..] == [] && vals[..0] == [];
    }
  }

  // A stream of encodings gives back the list of words.
  lemma {:induction false} StreamRoundTrip(vals: seq<u64>)
    ensures ParseAll(EncodeAll(vals)) == Some(vals)
  {
    if vals != [] {
      EncodeAllCons(vals);
      VarintRoundTrip(vals[0], EncodeAll(vals[1..]));
      StreamRoundTrip(vals[1..]);
      assert EncodeAll(vals)[|Encoded(vals[0])|..] == EncodeAll(vals[1..]);
      assert [vals[0]] + vals[1..] == vals;
    }
  }

  // ---------- Encodings as bytes that are read as a word ----------

  // The bytes c are read as the word w, whatever follows them.
  ghost predicate IsCode(c: seq<byte>, w: u64) {
    c != [] && forall t :: Parse(c + t) == Some(Decoded(|c|, w))
  }

  lemma EncodedIsCode(w: u64)
    ensures IsCode(Encoded(w), w)
  {
    forall t ensures Parse(Encoded(w) + t) == Some(Decoded(|Encoded(w)|, w)) {
      VarintRoundTrip(w, t);
    }
  }

  lemma Assoc(a: seq<byte>, b: seq<byte>, c: seq<byte>)
    ensures (a + b) + c == a + (b + c)
  {
  }

  lemma OneWord(w: u64)
    ensures EncodeAll([w]) == Encoded(w)
  {
    EncodeAllCons([w]);
    NothingMore(Encoded(w));
  }

  lemma NothingMore(c: seq<byte>)
    ensures c + [] == c
  {
  }

  lemma TwoWords(w: u64, v: u64)
    ensures EncodeAll([w, v]) == Encoded(w) + Encoded(v)
  {
    EncodeAllCons([w, v]);
    assert [w, v][1..] == [v];
    OneWord(v);
  }

  lemma ThreeWords(w: u64, v: u64, u: u64)
    ensures EncodeAll([w, v, u]) == Encoded(w) + (Encoded(v) + Encoded(u))
  {
    EncodeAllCons([w, v, u]);
    assert [w, v, u][1..] == [v, u];
    TwoWords(v, u);
  }

  method Store64(buf: array<byte>, place: nat, word: nat)
    requires place + 8 <= buf.Length
    modifies buf
    ensures buf[place..place + 8] == Bytes(word, 8)
    ensures forall k :: 0 <= k < place || place + 8 <= k < buf.Length ==> buf[k] == old(buf[k])
  {
    var bytes := Bytes(word, 8);
    forall k | 0 <= k < 8 {
      buf[place + k] := bytes[k];
    }
  }

  // Stores eight bytes of the encoding, or nine, whatever its length, and returns its end.
  method EncodeUnsigned(buf: array<byte>, place: nat, val: u64) returns (next: nat)
    requires place + MAX_SIZE <= buf.Length
    modifies buf
    ensures next == place + |Encoded(val)| <= buf.Length
    ensures buf[place..next] == Encoded(val)
    ensures forall k :: 0 <= k < place || place + MAX_SIZE <= k < buf.Length ==> buf[k] == old(buf[k])
  {
    if ShiftRight(val, 56) != 0 {
      TopByte(val);
      var high: byte := ShiftRight(val, 56);
      var word := Wrap(val * 256);
      Store64(buf, place, word);
      assert buf[place..place + 8] == Bytes(word, 8);
      buf[place + 8] := high;
      next := place + 9;
      assert buf[place..next] == buf[place..place + 8] + [high];
    } else {
      CodeOf(val);
      var word := 2 * val + 1;
      var bits := EncodeBits(Bsr(word));
      word := ShiftLeft(word, bits);
      Store64(buf, place, word);
      next := place + bits + 1;
      assert buf[place..next] == buf[place..place + 8][..bits + 1];
    }
  }

  // Encodings written one after another: each store overwrites the tail of the one before.
  method EncodeStream(buf: array<byte>, vals: seq<u64>) returns (end: nat)
    requires MAX_SIZE * |vals| <= buf.Length
    modifies buf
    ensures end <= buf.Length && buf[..end] == EncodeAll(vals)
  {
    end := 0;
    for i := 0 to |vals|
      invariant end <= MAX_SIZE * i
      invariant end <= buf.Length && buf[..end] == EncodeAll(vals[..i])
    {
      assert vals[..i + 1][..i] == vals[..i];
      var start := end;
      ghost var written := buf[..start];
      end := EncodeUnsigned(buf, start, vals[i]);
      assert buf[..end] == written + buf[start..end];
    }
    assert vals[..|vals|] == vals;
  }

  // The byte-serial decoder of the reference script, for a first byte that is not zero: it
  // gathers as many more bytes as the first one has trailing zeros.
  method ReadVarint(io: seq<byte>) returns (r: Option<Decoded>)
    requires io == [] || io[0] != 0
    ensures r == Parse(io)
  {
    if io == [] {
      return None;
    }
    var bits := Code(io[0]) - 1;
    var b: nat, off := io[0], 1;
    while off <= bits
      invariant 1 <= off <= bits + 1 && off <= |io|
      invariant b == Number(io[..off])
    {
      if off == |io| {
        return None;
      }
      NumberOfConcat(io[..off], [io[off]]);
      assert io[..off + 1] == io[..off] + [io[off]];
      b := b + Pow256(off) * io[off];
      off := off + 1;
    }
    ValueFits(io[..bits + 1]);
    r := Some(Decoded(bits + 1, ShiftRight(b, bits + 1)));
  }
}
