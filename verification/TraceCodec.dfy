/** The words of trace records: type tags, deltas and bundled clocks. */
module TraceCodec {
  import opened Wrappers
  import opened Words
  import opened Events

  const EVENT_MALLOC := 0
  const EVENT_FREE := 1
  const EVENT_TOK := 2
  const EVENT_BUF := 3
  const EVENT_FREE_SIZED := 4
  const EVENT_EXT_BASE := 7
  const EVENT_DEATH := 7
  const EVENT_END := 15
  const EVENT_REALLOC := 23
  const EVENT_MEMALIGN := 31
  const EVENT_SYNC_BARRIER := 39

  // ---------- Type tags ----------

  // Three bits of type below a payload, or eight where the three bits say "extended".
  function Tagged(payload: u64, tag: nat): u64
    requires tag < 7
  {
    Wrap(payload * 8) + tag
  }

  function TaggedExt(payload: u64, tag: nat): u64
    requires tag < 256
  {
    Wrap(payload * 256) + tag
  }

  function DecodeType(first: u64): nat {
    if first % 8 != EVENT_EXT_BASE then first % 8 else first % 256
  }

  // The tag is read back; the payload is if it did not lose bits on the left.
  lemma TagRead(payload: u64, tag: nat)
    requires tag < 7
    ensures DecodeType(Tagged(payload, tag)) == tag
  {
  }

  lemma TagRoundTrip(payload: u64, tag: nat)
    requires tag < 7
    ensures DecodeType(Tagged(payload, tag)) == tag
    ensures Tagged(payload, tag) / 8 == payload <==> payload < TWO64 / 8
  {
    TagRead(payload, tag);
  }

  lemma RestOf256(q: int, r: int)
    requires 0 <= r < 256
    ensures (256 * q + r) % 256 == r
  {
  }

  lemma RestOf8(q: int, r: int)
    requires 0 <= r < 8
    ensures (8 * q + r) % 8 == r
  {
  }

  lemma ExtTagRead(payload: u64, tag: nat)
    requires tag < 256 && tag % 8 == 7
    ensures DecodeType(TaggedExt(payload, tag)) == tag
  {
    var lost := payload * 256 / 0x1_0000_0000_0000_0000;
    var kept := payload - 0x100_0000_0000_0000 * lost;
    assert TaggedExt(payload, tag) == 256 * kept + tag;
    RestOf256(kept, tag);
    RestOf8(32 * kept + tag / 8, 7);
  }

  lemma ExtTagRoundTrip(payload: u64, tag: nat)
    requires tag < 256 && tag % 8 == 7
    ensures DecodeType(TaggedExt(payload, tag)) == tag
    ensures TaggedExt(payload, tag) / 256 == payload <==> payload < TWO64 / 256
  {
    ExtTagRead(payload, tag);
  }

  // ---------- Clocks ----------

  // The low ten bits of a timestamp give way to the cpu.
  function Bundle(ts: u64, cpu: u64): u64 {
    ts - ts % 1024 + cpu % 1024
  }

  function UnbundleTs(word: u64): u64 {
    word - word % 1024
  }

  function UnbundleCpu(word: u64): u64 {
    word % 1024
  }

  lemma BundleRoundTrip(ts: u64, cpu: u64)
    ensures UnbundleTs(Bundle(ts, cpu)) == ts - ts % 1024
    ensures UnbundleCpu(Bundle(ts, cpu)) == cpu % 1024
  {
  }

  // ---------- Deltas ----------

  function Delta(value: u64, prev: u64): u64 {
    Zigzag(Wrap(value - prev))
  }

  function Undelta(delta: u64, prev: u64): u64 {
    Wrap(Unzigzag(delta) + prev)
  }

  // A delta restores its value, if it arrives unchanged, and only then.
  lemma DeltaRoundTrip(value: u64, prev: u64, arrived: u64)
    ensures Undelta(arrived, prev) == value <==> arrived == Delta(value, prev)
  {
    hide Zigzag, Unzigzag;
    var d, u := Wrap(value - prev), Unzigzag(arrived);
    ZigzagRoundTrip(d);
    ZigzagRoundTrip(arrived);
    WrapAddBack(value, prev);
    WrapSubBack(u, prev);
  }

  // Sizes travel in units of eight bytes.
  function Eighths(size: u64): u64 {
    Wrap(size + 7) / 8
  }

  // The least multiple of eight that is not below size, in 64 bits.
  function RoundUp(size: u64): u64 {
    Wrap((size + 7) / 8 * 8)
  }

  // Only for sizes within seven of 2^64 is there no such multiple; they become zero.
  lemma RoundUpIsLeast(size: u64)
    ensures RoundUp(size) % 8 == 0
    ensures size <= RoundUp(size) < size + 8 <==> size + 7 < TWO64
    ensures size + 7 >= TWO64 ==> RoundUp(size) == 0
  {
    var m := (size + 7) / 8;
    if size + 7 < TWO64 {
      assert RoundUp(size) == 8 * m;
    } else {
      assert m == TWO64 / 8;
    }
  }

  // ---------- What a thread records ----------

  datatype Traced =
    | TMalloc(size: u64)
    | TMemalign(size: u64, align: u64)
    | TFree(tok: u64)
    | TFreeSized(tok: u64)
    | TRealloc(oldTok: u64, size: u64)
    | TTok(base: u64, ts: u64, cpu: u64)

  datatype EncState = EncState(prevSize: u64, prevToken: u64)

  // The words of one record, and the encoder's state after it.
  function EncodeEvent(e: Traced, st: EncState): (seq<u64>, EncState) {
    match e
    case TMalloc(size) =>
      ([Tagged(Delta(Eighths(size), st.prevSize), EVENT_MALLOC)], st.(prevSize := Eighths(size)))
    case TFree(tok) =>
      ([Tagged(Delta(tok, st.prevToken), EVENT_FREE)], st.(prevToken := tok))
    case TFreeSized(tok) =>
      ([Tagged(Delta(tok, st.prevToken), EVENT_FREE_SIZED)], st.(prevToken := tok))
    case TRealloc(oldTok, size) =>
      ([TaggedExt(Delta(Eighths(size), st.prevSize), EVENT_REALLOC), Delta(oldTok, st.prevToken)],
       EncState(Eighths(size), oldTok))
    case TMemalign(size, align) =>
      ([TaggedExt(Delta(Eighths(size), st.prevSize), EVENT_MEMALIGN), align], st.(prevSize := Eighths(size)))
    case TTok(base, ts, cpu) =>
      ([Tagged(base, EVENT_TOK), Bundle(ts, cpu)], st)
  }

  // ---------- What is read of it ----------

  datatype DecState = DecState(prevSize: u64, prevToken: u64, tokSeq: u64, ts: u64, cpu: u64)

  predicate HasSecondWord(kind: nat) {
    kind == EVENT_TOK || kind == EVENT_REALLOC || kind == EVENT_MEMALIGN
  }

  predicate IsInnerKind(kind: nat) {
    || kind == EVENT_MALLOC || kind == EVENT_FREE || kind == EVENT_FREE_SIZED
    || kind == EVENT_TOK || kind == EVENT_REALLOC || kind == EVENT_MEMALIGN
  }

  // The event that the words of a record stand for (none for a token record), and the decoder's
  // state after it.
  function DecodeEvent(first: u64, second: u64, d: DecState): (Option<Event>, DecState)
    requires IsInnerKind(DecodeType(first))
  {
    var kind := DecodeType(first);
    if kind == EVENT_MALLOC then
      var sz := Undelta(first / 8, d.prevSize);
      (Some(Malloc(d.tokSeq, Wrap(sz * 8))), d.(prevSize := sz, tokSeq := Wrap(d.tokSeq + 1)))
    else if kind == EVENT_FREE then
      var tok := Undelta(first / 8, d.prevToken);
      (Some(Free(tok)), d.(prevToken := tok))
    else if kind == EVENT_FREE_SIZED then
      var tok := Undelta(first / 8, d.prevToken);
      (Some(FreeSized(tok)), d.(prevToken := tok))
    else if kind == EVENT_REALLOC then
      var sz := Undelta(first / 256, d.prevSize);
      var tok := Undelta(second, d.prevToken);
      (Some(Realloc(tok, d.tokSeq, Wrap(sz * 8))),
       d.(prevSize := sz, prevToken := tok, tokSeq := Wrap(d.tokSeq + 1)))
    else if kind == EVENT_MEMALIGN then
      var sz := Undelta(first / 256, d.prevSize);
      (Some(Memalign(d.tokSeq, Wrap(sz * 8), second)), d.(prevSize := sz, tokSeq := Wrap(d.tokSeq + 1)))
    else
      (None, d.(ts := UnbundleTs(second), cpu := UnbundleCpu(second), tokSeq := first / 8))
  }

  // ---------- Round trip of one record ----------

  // What the record means to its reader: allocations get the next token of the thread, sizes are
  // rounded up, a token record resets the tokens and the clock.
  function Meaning(e: Traced, d: DecState): (Option<Event>, DecState) {
    var next := Wrap(d.tokSeq + 1);
    match e
    case TMalloc(size) =>
      (Some(Malloc(d.tokSeq, RoundUp(size))), d.(prevSize := Eighths(size), tokSeq := next))
    case TMemalign(size, align) =>
      (Some(Memalign(d.tokSeq, RoundUp(size), align)), d.(prevSize := Eighths(size), tokSeq := next))
    case TFree(tok) => (Some(Free(tok)), d.(prevToken := tok))
    case TFreeSized(tok) => (Some(FreeSized(tok)), d.(prevToken := tok))
    case TRealloc(oldTok, size) =>
      (Some(Realloc(oldTok, d.tokSeq, RoundUp(size))),
       d.(prevSize := Eighths(size), prevToken := oldTok, tokSeq := next))
    case TTok(base, ts, cpu) => (None, d.(tokSeq := base, ts := ts - ts % 1024, cpu := cpu % 1024))
  }

  // Encoder and decoder have the same previous values.
  predicate InStep(st: EncState, d: DecState) {
    st.prevSize == d.prevSize && st.prevToken == d.prevToken
  }

  // The deltas of the record keep all their bits when they are tagged.
  predicate Carries(e: Traced, st: EncState) {
    match e
    case TMalloc(size) => Delta(Eighths(size), st.prevSize) < TWO64 / 8
    case TMemalign(size, _) => Delta(Eighths(size), st.prevSize) < TWO64 / 256
    case TFree(tok) => Delta(tok, st.prevToken) < TWO64 / 8
    case TFreeSized(tok) => Delta(tok, st.prevToken) < TWO64 / 8
    case TRealloc(_, size) => Delta(Eighths(size), st.prevSize) < TWO64 / 256
    case TTok(base, _, _) => base < TWO64 / 8
  }

  function Second(words: seq<u64>): u64 {
    if |words| > 1 then words[1] else 0
  }

  lemma EighthsRoundUp(size: u64)
    ensures Wrap(Eighths(size) * 8) == RoundUp(size)
  {
    if size + 7 < TWO64 {
      assert Wrap(size + 7) == size + 7;
    } else {
      assert Wrap(size + 7) == size + 7 - TWO64 < 8;
      assert (size + 7) / 8 * 8 == TWO64;
    }
  }

  // The words of e are what their type says, and are read as its meaning exactly when its deltas
  // keep their bits.
  ghost predicate ReadBack(e: Traced, st: EncState, d: DecState) {
    var words := EncodeEvent(e, st).0;
    && IsInnerKind(DecodeType(words[0]))
    && |words| == (if HasSecondWord(DecodeType(words[0])) then 2 else 1)
    && (DecodeEvent(words[0], Second(words), d) == Meaning(e, d) <==> Carries(e, st))
  }

  lemma MallocReadBack(size: u64, st: EncState, d: DecState)
    requires InStep(st, d)
    ensures ReadBack(TMalloc(size), st, d)
  {
    hide Zigzag, Unzigzag;
    var delta := Delta(Eighths(size), st.prevSize);
    TagRoundTrip(delta, EVENT_MALLOC);
    DeltaRoundTrip(Eighths(size), st.prevSize, Tagged(delta, EVENT_MALLOC) / 8);
    EighthsRoundUp(size);
  }

  lemma FreeReadBack(tok: u64, st: EncState, d: DecState)
    requires InStep(st, d)
    ensures ReadBack(TFree(tok), st, d) && ReadBack(TFreeSized(tok), st, d)
  {
    hide Zigzag, Unzigzag;
    var delta := Delta(tok, st.prevToken);
    TagRoundTrip(delta, EVENT_FREE);
    DeltaRoundTrip(tok, st.prevToken, Tagged(delta, EVENT_FREE) / 8);
    TagRoundTrip(delta, EVENT_FREE_SIZED);
    DeltaRoundTrip(tok, st.prevToken, Tagged(delta, EVENT_FREE_SIZED) / 8);
  }

  lemma ReallocReadBack(oldTok: u64, size: u64, st: EncState, d: DecState)
    requires InStep(st, d)
    ensures ReadBack(TRealloc(oldTok, size), st, d)
  {
    hide Zigzag, Unzigzag;
    var delta := Delta(Eighths(size), st.prevSize);
    ExtTagRoundTrip(delta, EVENT_REALLOC);
    DeltaRoundTrip(Eighths(size), st.prevSize, TaggedExt(delta, EVENT_REALLOC) / 256);
    DeltaRoundTrip(oldTok, st.prevToken, Delta(oldTok, st.prevToken));
    EighthsRoundUp(size);
  }

  lemma MemalignReadBack(size: u64, align: u64, st: EncState, d: DecState)
    requires InStep(st, d)
    ensures ReadBack(TMemalign(size, align), st, d)
  {
    hide Zigzag, Unzigzag;
    var delta := Delta(Eighths(size), st.prevSize);
    ExtTagRoundTrip(delta, EVENT_MEMALIGN);
    DeltaRoundTrip(Eighths(size), st.prevSize, TaggedExt(delta, EVENT_MEMALIGN) / 256);
    EighthsRoundUp(size);
  }

  lemma TokReadBack(base: u64, ts: u64, cpu: u64, st: EncState, d: DecState)
    ensures ReadBack(TTok(base, ts, cpu), st, d)
  {
    TagRoundTrip(base, EVENT_TOK);
    BundleRoundTrip(ts, cpu);
  }

  lemma EventRoundTrip(e: Traced, st: EncState, d: DecState)
    requires InStep(st, d)
    ensures ReadBack(e, st, d) && InStep(EncodeEvent(e, st).1, Meaning(e, d).1)
  {
    hide Zigzag, Unzigzag;
    match e
    case TMalloc(size) => MallocReadBack(size, st, d);
    case TFree(tok) => FreeReadBack(tok, st, d);
    case TFreeSized(tok) => FreeReadBack(tok, st, d);
    case TRealloc(oldTok, size) => ReallocReadBack(oldTok, size, st, d);
    case TMemalign(size, align) => MemalignReadBack(size, align, st, d);
    case TTok(base, ts, cpu) => TokReadBack(base, ts, cpu, st, d);
  }

  // Sizes below 2^57 and tokens below 2^60 always keep their bits.
  predicate Modest(e: Traced) {
    match e
    case TMalloc(size) => size < 0x200_0000_0000_0000
    case TMemalign(size, _) => size < 0x200_0000_0000_0000
    case TFree(tok) => tok < 0x1000_0000_0000_0000
    case TFreeSized(tok) => tok < 0x1000_0000_0000_0000
    case TRealloc(oldTok, size) => oldTok < 0x1000_0000_0000_0000 && size < 0x200_0000_0000_0000
    case TTok(base, _, _) => base < 0x2000_0000_0000_0000
  }

  predicate ModestState(st: EncState) {
    st.prevSize <= 0x40_0000_0000_0000 && st.prevToken < 0x1000_0000_0000_0000
  }

  lemma DeltaSmall(value: u64, prev: u64, bound: int)
    requires 0 < bound <= TWO63 && -bound < value - prev < bound
    ensures Delta(value, prev) < 2 * bound
  {
    hide Zigzag, Unzigzag;
    ZigzagSmall(Wrap(value - prev), bound);
  }

  lemma ModestCarries(e: Traced, st: EncState)
    requires Modest(e) && ModestState(st)
    ensures Carries(e, st) && ModestState(EncodeEvent(e, st).1)
  {
    hide Zigzag, Unzigzag;
    if e.TMalloc? || e.TMemalign? || e.TRealloc? {
      DeltaSmall(Eighths(e.size), st.prevSize, 0x80_0000_0000_0000);
    }
    if e.TFree? || e.TFreeSized? {
      DeltaSmall(e.tok, st.prevToken, 0x1000_0000_0000_0000);
    }
  }

  // ---------- The reference script ----------

  // The script decodes with unbounded integers: there, unzigzag gives a signed number.
  function ScriptUnzigzag(i: nat): int {
    if i % 2 == 0 then i / 2 else -(i / 2) - 1
  }

  // So it agrees with 64-bit decoding exactly when the value does not leave the 64-bit range.
  lemma ScriptDelta(delta: u64, prev: u64)
    ensures Undelta(delta, prev) == ScriptUnzigzag(delta) + prev <==> 0 <= ScriptUnzigzag(delta) + prev < TWO64
    ensures Undelta(delta, prev) == Wrap(ScriptUnzigzag(delta) + prev)
  {
    hide Xor, And, ShiftRight;
    var x := ScriptUnzigzag(delta) + prev;
    if delta % 2 == 0 {
      assert Unzigzag(delta) + prev == x;
    } else {
      assert Unzigzag(delta) + prev == x + TWO64;
      WrapTurn(x);
    }
  }

  lemma WrapTurn(x: int)
    ensures Wrap(x + TWO64) == Wrap(x)
  {
  }

  // The script takes the size delta of a realloc record from the wrong bits, three up instead of
  // eight.  From no such record does it take the delta that was recorded.
  lemma ScriptMisreadsRealloc(first: u64)
    requires DecodeType(first) == EVENT_REALLOC
    ensures ScriptUnzigzag(first / 8) != ScriptUnzigzag(first / 256)
  {
    assert first == 256 * (first / 256) + EVENT_REALLOC;
    assert first / 8 == 32 * (first / 256) + EVENT_REALLOC / 8;
    ScriptInjective(first / 8, first / 256);
  }

  lemma ScriptInjective(i: nat, j: nat)
    ensures ScriptUnzigzag(i) == ScriptUnzigzag(j) ==> i == j
  {
  }
}
