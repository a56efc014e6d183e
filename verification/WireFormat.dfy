/** What the first word of a record says, in the numbers of the format. */
module WireFormats {
  import opened Wrappers
  import opened Words
  import opened Events
  import opened Varint
  import opened TraceCodec
  import opened ThreadCodec
  import opened ThreadStates
  import opened OuterStream
  import opened SerializeTraces

  // ---------- Varints ----------

  // A word below 2^(7n) in n bytes: the lowest bits of the first byte are a one above n - 1 zeros, and
  // the rest is the word, low bytes first.
  lemma ShortFormat(val: u64, s: seq<byte>, t: seq<byte>)
    requires 1 <= |s| <= 8 && Number(s) == ShiftLeft(2 * val + 1, |s| - 1)
    ensures Parse(s + t) == Some(Decoded(|s|, val))
  {
    var n := |s| - 1;
    ZerosOfShift(2 * val + 1, n);
    NumberSplit(s);
    FirstByteTells(s, n);
    ShiftBack(2 * val + 1, n, n + 1);
    assert ShiftRight(2 * val + 1, 1) == val;
    assert (s + t)[..|s|] == s;
  }

  lemma FirstByteTells(s: seq<byte>, n: nat)
    requires s != [] && n < 8 && Number(s) > 0 && TrailingZeros(Number(s)) == n && Number(s) % 256 == s[0]
    ensures s[0] != 0 && Code(s[0]) == n + 1
  {
    LowIsNotZero(Number(s), 8);
    LowEight(Number(s));
    ScanOfLowByte(Number(s));
  }

  // A zero byte, and behind it all eight bytes of the word, low bytes first.
  lemma LongFormat(val: u64, s: seq<byte>, t: seq<byte>)
    requires |s| == 8 && Number(s) == val
    ensures Parse([0] + s + t) == Some(Decoded(9, val))
  {
    var all := [0] + s;
    assert (all + t)[..9] == all && (all + t)[0] == 0 && all[1..] == s;
  }

  // ---------- Clocks ----------

  // The ten low bits of a clock word are the cpu, and the others the time.
  lemma ClockWord(w: u64)
    ensures UnbundleTs(w) + UnbundleCpu(w) == w && UnbundleTs(w) % 1024 == 0 && 0 <= UnbundleCpu(w) < 1024
  {
    var q, r := w / 1024, w % 1024;
    assert UnbundleTs(w) == 1024 * q;
  }

  // ---------- Records of a buffer ----------

  // A delta, as the signed number its zigzag stands for, added in 64 bits.
  function Plus(prev: u64, delta: u64): u64 {
    (prev + if delta % 2 == 0 then delta / 2 else -(delta / 2) - 1) % 0x1_0000_0000_0000_0000
  }

  // A size travels in eighths.
  function SizeOf(eighths: u64): u64 {
    (8 * eighths) % 0x1_0000_0000_0000_0000
  }

  function NextToken(token: u64): u64 {
    (token + 1) % 0x1_0000_0000_0000_0000
  }

  lemma UndeltaIsPlus(delta: u64, prev: u64)
    ensures Undelta(delta, prev) == Plus(prev, delta)
  {
    ScriptDelta(delta, prev);
  }

  // What the type of a word is.
  lemma TypeOf(w: u64)
    ensures w % 8 != 7 ==> DecodeType(w) == w % 8
    ensures w % 8 == 7 ==> DecodeType(w) == w % 256
    ensures w % 256 % 8 == w % 8
  {
    RestOf8(32 * (w / 256) + w % 256 / 8, w % 256 % 8);
    assert w == 8 * (32 * (w / 256) + w % 256 / 8) + w % 256 % 8;
  }

  // An allocation: its size is a delta, and its token is the thread's next one.
  lemma ReadsMalloc(w: u64, rest: seq<byte>, d: DecState)
    requires w % 8 == 0
    ensures var sz := Plus(d.prevSize, w / 8);
            ReadNext(Encoded(w) + rest, d) ==
            NextRead.Event(Malloc(d.tokSeq, SizeOf(sz)), rest, d.(prevSize := sz, tokSeq := NextToken(d.tokSeq)))
  {
    hide Undelta, Plus, Encoded, ReadNext, DecodeType;
    TypeOf(w);
    UndeltaIsPlus(w / 8, d.prevSize);
    OneWordRecord(w, rest, d);
  }

  lemma ReadsFree(w: u64, rest: seq<byte>, d: DecState)
    requires w % 8 == 1
    ensures var tok := Plus(d.prevToken, w / 8);
            ReadNext(Encoded(w) + rest, d) == NextRead.Event(Free(tok), rest, d.(prevToken := tok))
  {
    hide Undelta, Plus, Encoded, ReadNext, DecodeType;
    TypeOf(w);
    UndeltaIsPlus(w / 8, d.prevToken);
    OneWordRecord(w, rest, d);
  }

  lemma ReadsFreeSized(w: u64, rest: seq<byte>, d: DecState)
    requires w % 8 == 4
    ensures var tok := Plus(d.prevToken, w / 8);
            ReadNext(Encoded(w) + rest, d) == NextRead.Event(FreeSized(tok), rest, d.(prevToken := tok))
  {
    hide Undelta, Plus, Encoded, ReadNext, DecodeType;
    TypeOf(w);
    UndeltaIsPlus(w / 8, d.prevToken);
    OneWordRecord(w, rest, d);
  }

  // A token record is no event: it sets the next token and the clock of what follows.
  lemma ReadsToken(w: u64, v: u64, rest: seq<byte>, d: DecState)
    requires w % 8 == 2
    ensures ReadNext(Encoded(w) + (Encoded(v) + rest), d) ==
            ReadNext(rest, d.(tokSeq := w / 8, ts := v - v % 1024, cpu := v % 1024))
  {
    hide Encoded, ReadNext, DecodeType;
    TypeOf(w);
    TwoWordRecord(w, v, rest, d);
  }

  lemma ReadsRealloc(w: u64, v: u64, rest: seq<byte>, d: DecState)
    requires w % 256 == 23
    ensures var sz, tok := Plus(d.prevSize, w / 256), Plus(d.prevToken, v);
            ReadNext(Encoded(w) + (Encoded(v) + rest), d) ==
            NextRead.Event(Realloc(tok, d.tokSeq, SizeOf(sz)), rest,
                           d.(prevSize := sz, prevToken := tok, tokSeq := NextToken(d.tokSeq)))
  {
    hide Undelta, Plus, Encoded, ReadNext, DecodeType;
    TypeOf(w);
    UndeltaIsPlus(w / 256, d.prevSize);
    UndeltaIsPlus(v, d.prevToken);
    TwoWordRecord(w, v, rest, d);
  }

  lemma ReadsMemalign(w: u64, v: u64, rest: seq<byte>, d: DecState)
    requires w % 256 == 31
    ensures var sz := Plus(d.prevSize, w / 256);
            ReadNext(Encoded(w) + (Encoded(v) + rest), d) ==
            NextRead.Event(Memalign(d.tokSeq, SizeOf(sz), v), rest, d.(prevSize := sz, tokSeq := NextToken(d.tokSeq)))
  {
    hide Undelta, Plus, Encoded, ReadNext, DecodeType;
    TypeOf(w);
    UndeltaIsPlus(w / 256, d.prevSize);
    TwoWordRecord(w, v, rest, d);
  }

  function Onward(r: Inner): NextRead {
    match r
    case Bad => Broken
    case Tick(rest, after) => ReadNext(rest, after)
    case Got(ev, rest, after) => NextRead.Event(ev, rest, after)
  }

  lemma OneWordRecord(w: u64, rest: seq<byte>, d: DecState)
    requires IsInnerKind(DecodeType(w)) && !HasSecondWord(DecodeType(w))
    ensures ReadNext(Encoded(w) + rest, d) == Onward(Deliver(w, 0, rest, d))
  {
    hide Encoded, Parse, ReadInner, Deliver, DecodeType, IsInnerKind, HasSecondWord;
    EncodedIsCode(w);
    ReadOne(Encoded(w), w, rest, d);
  }

  lemma TwoWordRecord(w: u64, v: u64, rest: seq<byte>, d: DecState)
    requires IsInnerKind(DecodeType(w)) && HasSecondWord(DecodeType(w))
    ensures ReadNext(Encoded(w) + (Encoded(v) + rest), d) == Onward(Deliver(w, v, rest, d))
  {
    hide Encoded, Parse, ReadInner, Deliver, DecodeType, IsInnerKind, HasSecondWord;
    EncodedIsCode(w);
    EncodedIsCode(v);
    ReadTwo(Encoded(w), Encoded(v), w, v, rest, d);
  }

  // Nothing else is a record of a buffer.
  lemma ReadsNothingElse(w: u64, rest: seq<byte>, d: DecState)
    requires w % 8 !in {0, 1, 2, 4} && w % 256 !in {23, 31}
    ensures ReadNext(Encoded(w) + rest, d) == Broken
  {
    hide Encoded, Parse, DecodeEvent, DecodeType;
    TypeOf(w);
    EncodedIsCode(w);
  }

  // ---------- Records of a file ----------

  // A buffer: its thread, the clock word, its length, and its bytes.
  lemma ReadsBuffer(w: u64, v: u64, bytes: seq<byte>, rest: seq<byte>)
    requires w % 8 == 3 && |bytes| < 0x1_0000_0000_0000_0000
    ensures ReadOuter(Encoded(w) + (Encoded(v) + (Encoded(|bytes|) + (bytes + rest)))) ==
            More(Buffer(w / 8, v - v % 1024, v % 1024, bytes), rest)
  {
    hide Encoded, IsCode, Parse, ReadOuter, DecodeType;
    TypeOf(w);
    EncodedIsCode(w);
    EncodedIsCode(v);
    EncodedIsCode(|bytes|);
    WholeBuffer(Encoded(w), Encoded(v), Encoded(|bytes|), w, v, bytes, rest);
  }

  lemma WholeBuffer(cw: seq<byte>, cv: seq<byte>, cu: seq<byte>, w: u64, v: u64, bytes: seq<byte>, rest: seq<byte>)
    requires |bytes| < TWO64 && IsCode(cw, w) && IsCode(cv, v) && IsCode(cu, |bytes|) && DecodeType(w) == EVENT_BUF
    ensures ReadOuter(cw + (cv + (cu + (bytes + rest)))) == More(BufferOf(w, v, bytes), rest)
  {
    hide IsCode, Parse, ReadOuter, DecodeType;
    var all := cw + (cv + (cu + (bytes + rest)));
    BufferCut(cw, cv, cu, w, v, bytes, rest, |all|);
    assert all[..|all|] == all && rest[..|rest|] == rest;
  }

  lemma ReadsDeath(w: u64, v: u64, rest: seq<byte>)
    requires w % 256 == 7
    ensures ReadOuter(Encoded(w) + (Encoded(v) + rest)) == More(Death(w / 256, v - v % 1024, v % 1024), rest)
  {
    hide Encoded, Parse, ReadOuter, DecodeType;
    var all := Encoded(w) + (Encoded(v) + rest);
    TypeOf(w);
    EncodedIsCode(w);
    EncodedIsCode(v);
    DeathCut(Encoded(w), Encoded(v), w, v, rest, |all|);
    assert all[..|all|] == all && rest[..|rest|] == rest;
  }

  lemma ReadsEnd(w: u64, rest: seq<byte>)
    requires w % 256 == 15
    ensures ReadOuter(Encoded(w) + rest) == More(End, rest)
  {
    hide Encoded, Parse, ReadOuter, DecodeType;
    var all := Encoded(w) + rest;
    TypeOf(w);
    EncodedIsCode(w);
    EndCut(Encoded(w), w, rest, |all|);
    assert all[..|all|] == all && rest[..|rest|] == rest;
  }

  lemma ReadsBarrier(w: u64, v: u64, rest: seq<byte>)
    requires w % 256 == 39
    ensures ReadOuter(Encoded(w) + (Encoded(v) + rest)) == More(SyncBarrier(v - v % 1024, v % 1024), rest)
  {
    hide Encoded, Parse, ReadOuter, DecodeType;
    var all := Encoded(w) + (Encoded(v) + rest);
    TypeOf(w);
    EncodedIsCode(w);
    EncodedIsCode(v);
    BarrierCut(Encoded(w), Encoded(v), w, v, rest, |all|);
    assert all[..|all|] == all && rest[..|rest|] == rest;
  }

  // Nothing else is a record of a file.
  lemma ReadsNoOther(w: u64, rest: seq<byte>)
    requires w % 8 != 3 && w % 256 !in {7, 15, 39}
    ensures ReadOuter(Encoded(w) + rest) == Panic
  {
    hide Encoded, Parse, DecodeType;
    TypeOf(w);
    EncodedIsCode(w);
  }

  // A file is taken for a trace if its first four bytes are the magic number, low byte first.
  lemma MagicNumber(data: seq<byte>)
    ensures HasMagic(data) <==> |data| >= 4 && data[0] == 0xE4 && data[1] == 0x63 && data[2] == 0xBD && data[3] == 0x6C
    ensures |data| >= 4 ==> (HasMagic(data) <==> Number(data[..4]) == 0x6CBD63E4)
  {
    if |data| >= 4 {
      FourBytes(data[..4]);
      FourBytes(MAGIC);
      if Number(data[..4]) == 0x6CBD63E4 {
        assert data[..4] == MAGIC;
      }
    }
  }

  lemma FourBytes(s: seq<byte>)
    requires |s| == 4
    ensures var (b0: int, b1: int, b2: int, b3: int) := (s[0], s[1], s[2], s[3]);
            Number(s) == b0 + 0x100 * b1 + 0x1_0000 * b2 + 0x100_0000 * b3
  {
    var (b0: int, b1: int, b2: int, b3: int) := (s[0], s[1], s[2], s[3]);
    assert s[1..][1..] == s[2..] && s[2..][1..] == s[3..] && s[3..][1..] == [];
    assert Number(s[3..]) == b3;
    assert Number(s[2..]) == b2 + 0x100 * b3;
    assert Number(s[1..]) == b1 + 0x100 * b2 + 0x1_0000 * b3;
  }
}
