/** The bytes of a thread's buffers, and the events in them. */
module ThreadCodec {
  import opened Wrappers
  import opened Words
  import opened Events
  import opened Varint
  import opened TraceCodec

  // ---------- Reading ----------

  datatype Inner =
    | Bad                                              // the bytes end inside a record, or its type is unknown
    | Tick(rest: seq<byte>, after: DecState)           // a token record
    | Got(ev: Event, rest: seq<byte>, after: DecState) // an event

  // The next record of a buffer.
  function ReadInner(s: seq<byte>, d: DecState): (r: Inner)
    ensures !r.Bad? ==> |r.rest| < |s|
  {
    match Parse(s)
    case None => Bad
    case Some(first) =>
      var s1 := s[first.advance..];
      if !IsInnerKind(DecodeType(first.value)) then Bad
      else if HasSecondWord(DecodeType(first.value)) then
        match Parse(s1)
        case None => Bad
        case Some(second) => Deliver(first.value, second.value, s1[second.advance..], d)
      else Deliver(first.value, 0, s1, d)
  }

  function Deliver(first: u64, second: u64, rest: seq<byte>, d: DecState): (r: Inner)
    requires IsInnerKind(DecodeType(first))
    ensures !r.Bad? && r.rest == rest
  {
    var (ev, after) := DecodeEvent(first, second, d);
    if ev.Some? then Got(ev.value, rest, after) else Tick(rest, after)
  }

  // Events read before the ones of r.
  function Continue(evs: seq<Timed>, r: Option<(seq<Timed>, DecState)>): Option<(seq<Timed>, DecState)> {
    match r
    case None => None
    case Some((more, end)) => Some((evs + more, end))
  }

  lemma ContinueTwice(xs: seq<Timed>, ys: seq<Timed>, r: Option<(seq<Timed>, DecState)>)
    ensures Continue(xs, Continue(ys, r)) == Continue(xs + ys, r)
  {
    if r.Some? {
      assert xs + (ys + r.value.0) == (xs + ys) + r.value.0;
    }
  }

  lemma ContinueNothing(r: Option<(seq<Timed>, DecState)>)
    ensures Continue([], r) == r
  {
    if r.Some? {
      assert [] + r.value.0 == r.value.0;
    }
  }

  // All events of a buffer, each with the clock of the thread when it was read.
  function DecodeStream(s: seq<byte>, d: DecState): Option<(seq<Timed>, DecState)>
    decreases |s|
  {
    if s == [] then Some(([], d))
    else match ReadInner(s, d)
      case Bad => None
      case Tick(rest, after) => DecodeStream(rest, after)
      case Got(ev, rest, after) => Continue([Timed(ev, after.ts, after.cpu)], DecodeStream(rest, after))
  }

  // A buffer of a thread, with the clock of the moment it was handed over.
  datatype Buf = Buf(ts: u64, cpu: u64, bytes: seq<byte>)

  // A thread that has used up a buffer takes over its clock.
  function Leave(d: DecState, b: Buf): DecState {
    d.(ts := b.ts, cpu := b.cpu)
  }

  function DecodeBufs(bufs: seq<Buf>, d: DecState): Option<(seq<Timed>, DecState)> {
    if bufs == [] then Some(([], d))
    else match DecodeStream(bufs[0].bytes, d)
      case None => None
      case Some((evs, mid)) => Continue(evs, DecodeBufs(bufs[1..], Leave(mid, bufs[0])))
  }

  // Buffers that arrive later are decoded from where the earlier ones end.
  lemma {:induction false} DecodeBufsConcat(xs: seq<Buf>, ys: seq<Buf>, d: DecState)
    requires DecodeBufs(xs, d).Some?
    ensures DecodeBufs(xs + ys, d) == Continue(DecodeBufs(xs, d).value.0, DecodeBufs(ys, DecodeBufs(xs, d).value.1))
  {
    if xs == [] {
      assert xs + ys == ys;
      ContinueNothing(DecodeBufs(ys, d));
    } else {
      assert (xs + ys)[1..] == xs[1..] + ys;
      var (evs, mid) := DecodeStream(xs[0].bytes, d).value;
      DecodeBufsConcat(xs[1..], ys, Leave(mid, xs[0]));
      var (more, end) := DecodeBufs(xs[1..], Leave(mid, xs[0])).value;
      ContinueTwice(evs, more, DecodeBufs(ys, end));
    }
  }

  // ---------- Writing ----------

  function EncodeRecords(es: seq<Traced>, st: EncState): (seq<byte>, EncState) {
    if es == [] then ([], st)
    else
      var (words, st1) := EncodeEvent(es[0], st);
      var (more, end) := EncodeRecords(es[1..], st1);
      (EncodeAll(words) + more, end)
  }

  // What a thread does between two hand-overs of its buffer.
  datatype Chunk = Chunk(ts: u64, cpu: u64, es: seq<Traced>)

  function EncodeChunks(cs: seq<Chunk>, st: EncState): seq<Buf> {
    if cs == [] then []
    else
      var (bytes, st1) := EncodeRecords(cs[0].es, st);
      [Buf(cs[0].ts, cs[0].cpu, bytes)] + EncodeChunks(cs[1..], st1)
  }

  // ---------- What the records mean ----------

  // The events of one record: one, or none for a token record.
  function EventsOfOne(e: Traced, d: DecState): seq<Timed> {
    var (ev, after) := Meaning(e, d);
    if ev.Some? then [Timed(ev.value, after.ts, after.cpu)] else []
  }

  function EventsOf(es: seq<Traced>, d: DecState): seq<Timed> {
    if es == [] then [] else EventsOfOne(es[0], d) + EventsOf(es[1..], Meaning(es[0], d).1)
  }

  function After(es: seq<Traced>, d: DecState): DecState {
    if es == [] then d else After(es[1..], Meaning(es[0], d).1)
  }

  function AfterChunk(c: Chunk, d: DecState): DecState {
    After(c.es, d).(ts := c.ts, cpu := c.cpu)
  }

  function EventsOfChunks(cs: seq<Chunk>, d: DecState): seq<Timed> {
    if cs == [] then [] else EventsOf(cs[0].es, d) + EventsOfChunks(cs[1..], AfterChunk(cs[0], d))
  }

  function AfterChunks(cs: seq<Chunk>, d: DecState): DecState {
    if cs == [] then d else AfterChunks(cs[1..], AfterChunk(cs[0], d))
  }

  // ---------- Round trip ----------

  lemma ReadOne(c: seq<byte>, first: u64, t: seq<byte>, d: DecState)
    requires IsCode(c, first) && IsInnerKind(DecodeType(first)) && !HasSecondWord(DecodeType(first))
    ensures ReadInner(c + t, d) == Deliver(first, 0, t, d)
  {
    hide Parse, DecodeType, DecodeEvent;
    assert (c + t)[|c|..] == t;
  }

  lemma ReadTwo(c: seq<byte>, b: seq<byte>, first: u64, second: u64, t: seq<byte>, d: DecState)
    requires IsCode(c, first) && IsCode(b, second)
    requires IsInnerKind(DecodeType(first)) && HasSecondWord(DecodeType(first))
    ensures ReadInner(c + (b + t), d) == Deliver(first, second, t, d)
  {
    hide Parse, DecodeType, DecodeEvent;
    assert (c + (b + t))[|c|..] == b + t;
    assert (b + t)[|b|..] == t;
  }

  // What reading the record of e gives.
  function ReadAs(e: Traced, t: seq<byte>, d: DecState): Inner {
    var (ev, after) := Meaning(e, d);
    if ev.Some? then Got(ev.value, t, after) else Tick(t, after)
  }

  function RecordBytes(e: Traced, st: EncState): seq<byte> {
    EncodeAll(EncodeEvent(e, st).0)
  }

  lemma DeliverAs(e: Traced, st: EncState, d: DecState, t: seq<byte>)
    requires InStep(st, d) && Carries(e, st)
    ensures var words := EncodeEvent(e, st).0;
            && IsInnerKind(DecodeType(words[0]))
            && |words| == (if HasSecondWord(DecodeType(words[0])) then 2 else 1)
            && Deliver(words[0], Second(words), t, d) == ReadAs(e, t, d)
  {
    EventRoundTrip(e, st, d);
  }

  lemma RecordRoundTrip(e: Traced, st: EncState, d: DecState, t: seq<byte>)
    requires InStep(st, d) && Carries(e, st)
    ensures RecordBytes(e, st) != [] && ReadInner(RecordBytes(e, st) + t, d) == ReadAs(e, t, d)
  {
    DeliverAs(e, st, d, t);
    WordsRead(EncodeEvent(e, st).0, t, d);
  }

  lemma WordsRead(words: seq<u64>, t: seq<byte>, d: DecState)
    requires words != [] && IsInnerKind(DecodeType(words[0]))
    requires |words| == (if HasSecondWord(DecodeType(words[0])) then 2 else 1)
    ensures EncodeAll(words) != [] && ReadInner(EncodeAll(words) + t, d) == Deliver(words[0], Second(words), t, d)
  {
    hide Encoded, ReadInner, Deliver;
    if |words| == 2 {
      assert words == [words[0], words[1]];
      TwoWordsRead(words[0], words[1], t, d);
    } else {
      assert words == [words[0]];
      OneWord(words[0]);
      EncodedIsCode(words[0]);
      ReadOne(Encoded(words[0]), words[0], t, d);
    }
  }

  lemma TwoWordsRead(first: u64, second: u64, t: seq<byte>, d: DecState)
    requires IsInnerKind(DecodeType(first)) && HasSecondWord(DecodeType(first))
    ensures EncodeAll([first, second]) != []
    ensures ReadInner(EncodeAll([first, second]) + t, d) == Deliver(first, second, t, d)
  {
    hide Encoded, ReadInner, Deliver;
    var c, b := Encoded(first), Encoded(second);
    EncodedIsCode(first);
    EncodedIsCode(second);
    TwoWords(first, second);
    Assoc(c, b, t);
    ReadTwo(c, b, first, second, t, d);
  }

  lemma RecordsStep(e: Traced, rest: seq<Traced>, bytes: seq<byte>, more: seq<byte>, d: DecState)
    requires bytes != [] && ReadInner(bytes + more, d) == ReadAs(e, more, d)
    requires DecodeStream(more, Meaning(e, d).1) == Some((EventsOf(rest, Meaning(e, d).1), After(rest, Meaning(e, d).1)))
    ensures DecodeStream(bytes + more, d) == Some((EventsOf([e] + rest, d), After([e] + rest, d)))
  {
    assert ([e] + rest)[1..] == rest;
    var evs := EventsOf(rest, Meaning(e, d).1);
    assert [] + evs == evs;
  }

  // Every record keeps the bits of its deltas when the encoder comes to it.
  predicate AllCarry(es: seq<Traced>, st: EncState) {
    es == [] || (Carries(es[0], st) && AllCarry(es[1..], EncodeEvent(es[0], st).1))
  }

  // A buffer of such records is read as what they mean.
  lemma {:induction false} RecordsRoundTrip(es: seq<Traced>, st: EncState, d: DecState)
    requires InStep(st, d) && AllCarry(es, st)
    ensures DecodeStream(EncodeRecords(es, st).0, d) == Some((EventsOf(es, d), After(es, d)))
    ensures InStep(EncodeRecords(es, st).1, After(es, d))
  {
    if es != [] {
      var e, st1, d1 := es[0], EncodeEvent(es[0], st).1, Meaning(es[0], d).1;
      var more := EncodeRecords(es[1..], st1).0;
      EventRoundTrip(e, st, d);
      RecordRoundTrip(e, st, d, more);
      RecordsRoundTrip(es[1..], st1, d1);
      RecordsStep(e, es[1..], RecordBytes(e, st), more, d);
      assert [e] + es[1..] == es;
    }
  }

  // Modest records are such records, whatever modest ones came before.
  lemma {:induction false} ModestAllCarry(es: seq<Traced>, st: EncState)
    requires ModestState(st) && forall e :: e in es ==> Modest(e)
    ensures AllCarry(es, st) && ModestState(EncodeRecords(es, st).1)
  {
    if es != [] {
      ModestCarries(es[0], st);
      ModestAllCarry(es[1..], EncodeEvent(es[0], st).1);
    }
  }

  predicate ChunksCarry(cs: seq<Chunk>, st: EncState) {
    cs == [] || (AllCarry(cs[0].es, st) && ChunksCarry(cs[1..], EncodeRecords(cs[0].es, st).1))
  }

  // A whole trace of a thread, handed over in any number of buffers, is read as what it means.
  lemma {:induction false} TraceRoundTrip(cs: seq<Chunk>, st: EncState, d: DecState)
    requires InStep(st, d) && ChunksCarry(cs, st)
    ensures DecodeBufs(EncodeChunks(cs, st), d) == Some((EventsOfChunks(cs, d), AfterChunks(cs, d)))
  {
    if cs != [] {
      RecordsRoundTrip(cs[0].es, st, d);
      var (bytes, st1) := EncodeRecords(cs[0].es, st);
      TraceRoundTrip(cs[1..], st1, AfterChunk(cs[0], d));
      assert EncodeChunks(cs, st)[1..] == EncodeChunks(cs[1..], st1);
    }
  }

  // Sizes below 2^57 and tokens below 2^60 are enough for that.
  lemma {:induction false} ModestChunksCarry(cs: seq<Chunk>, st: EncState)
    requires ModestState(st) && forall c, e :: c in cs && e in c.es ==> Modest(e)
    ensures ChunksCarry(cs, st)
  {
    if cs != [] {
      ModestAllCarry(cs[0].es, st);
      ModestChunksCarry(cs[1..], EncodeRecords(cs[0].es, st).1);
    }
  }

  // ---------- Where a trace is split does not matter ----------

  function Plain(evs: seq<Timed>): seq<Event> {
    seq(|evs|, i requires 0 <= i < |evs| => evs[i].ev)
  }

  function AllOf(cs: seq<Chunk>): seq<Traced> {
    if cs == [] then [] else cs[0].es + AllOf(cs[1..])
  }

  // d and f differ in their clocks only.
  predicate SameButClock(d: DecState, f: DecState) {
    d == f.(ts := d.ts, cpu := d.cpu)
  }

  lemma {:induction false} EventsConcat(xs: seq<Traced>, ys: seq<Traced>, d: DecState)
    ensures EventsOf(xs + ys, d) == EventsOf(xs, d) + EventsOf(ys, After(xs, d))
  {
    if xs == [] {
      assert xs + ys == ys;
    } else {
      assert (xs + ys)[1..] == xs[1..] + ys;
      EventsConcat(xs[1..], ys, Meaning(xs[0], d).1);
    }
  }

  lemma ClockFreeStep(e: Traced, d: DecState, f: DecState)
    requires SameButClock(d, f)
    ensures Plain(EventsOfOne(e, d)) == Plain(EventsOfOne(e, f))
    ensures SameButClock(Meaning(e, d).1, Meaning(e, f).1)
  {
  }

  lemma {:induction false} ClockFree(es: seq<Traced>, d: DecState, f: DecState)
    requires SameButClock(d, f)
    ensures Plain(EventsOf(es, d)) == Plain(EventsOf(es, f))
    ensures SameButClock(After(es, d), After(es, f))
  {
    if es != [] {
      var d1, f1 := Meaning(es[0], d).1, Meaning(es[0], f).1;
      ClockFreeStep(es[0], d, f);
      ClockFree(es[1..], d1, f1);
      PlainConcat(EventsOfOne(es[0], d), EventsOf(es[1..], d1));
      PlainConcat(EventsOfOne(es[0], f), EventsOf(es[1..], f1));
    }
  }

  lemma PlainConcat(xs: seq<Timed>, ys: seq<Timed>)
    ensures Plain(xs + ys) == Plain(xs) + Plain(ys)
  {
  }

  // The events of a trace are those of its records in a row, wherever the buffers were handed over.
  lemma {:induction false} SplitDoesNotMatter(cs: seq<Chunk>, d: DecState, f: DecState)
    requires SameButClock(d, f)
    ensures Plain(EventsOfChunks(cs, d)) == Plain(EventsOf(AllOf(cs), f))
  {
    if cs != [] {
      var es, rest := cs[0].es, AllOf(cs[1..]);
      ClockFree(es, d, f);
      EventsConcat(es, rest, f);
      SplitDoesNotMatter(cs[1..], AfterChunk(cs[0], d), After(es, f));
      PlainConcat(EventsOf(es, d), EventsOfChunks(cs[1..], AfterChunk(cs[0], d)));
      PlainConcat(EventsOf(es, f), EventsOf(rest, After(es, f)));
    }
  }
}
