/** Recorded sessions: what the tracer writes, and what the serializer makes of it. */
module Sessions {
  import opened Wrappers
  import opened Words
  import opened Events
  import opened History
  import opened Calls
  import opened Machine
  import opened MachineTheorems
  import opened Varint
  import opened TraceCodec
  import opened ThreadCodec
  import opened OuterStream
  import opened Serializers
  import opened SerializeTraces

  // What the tracer writes to the file, in order: the buffer a thread hands over, the death of a
  // thread, a barrier.
  datatype Item =
    | Handed(tid: u64, chunk: Chunk)
    | Ended(tid: u64, ts: u64, cpu: u64)
    | Synced(ts: u64, cpu: u64)

  // The encoder of every thread.
  type Encoders = map<Tid, EncState>

  function EncoderFor(encs: Encoders, tid: Tid): EncState {
    if tid in encs then encs[tid] else EncState(0, 0)
  }

  function RecordOf(item: Item, encs: Encoders): OuterEvent {
    match item
    case Handed(tid, c) => Buffer(tid, c.ts, c.cpu, EncodeRecords(c.es, EncoderFor(encs, tid)).0)
    case Ended(tid, ts, cpu) => Death(tid, ts, cpu)
    case Synced(ts, cpu) => SyncBarrier(ts, cpu)
  }

  function EncodersAfter(item: Item, encs: Encoders): Encoders {
    match item
    case Handed(tid, c) => encs[tid := EncodeRecords(c.es, EncoderFor(encs, tid)).1]
    case _ => encs
  }

  function RecordsOf(items: seq<Item>, encs: Encoders): seq<OuterEvent> {
    if items == [] then [End]
    else [RecordOf(items[0], encs)] + RecordsOf(items[1..], EncodersAfter(items[0], encs))
  }

  // ---------- What a session means ----------

  function Understand(item: Item, t: Trace, clocks: Clocks): Option<Trace>
    requires !item.Synced?
  {
    if item.tid in t.dead then None
    else match item
      case Handed(tid, c) =>
        var d := DecoderFor(t, tid, clocks);
        var evs := EventsOf(c.es, d);
        Some(Trace(Extend(t.prog, tid, evs), t.dead, t.decs[tid := AfterChunk(c, d)], t.inputs + [OpArrive(tid, evs)]))
      case Ended(tid, _, _) =>
        if tid in t.prog then Some(t.(dead := t.dead + {tid}, inputs := t.inputs + [OpDie(tid)])) else None
  }

  function UnderstandAll(items: seq<Item>, t: Trace, clocks: Clocks): Option<Trace> {
    if items == [] then Some(EndOfRound(t))
    else if items[0].Synced? then UnderstandAll(items[1..], EndOfRound(t), clocks)
    else match Understand(items[0], t, clocks)
      case None => None
      case Some(t1) => UnderstandAll(items[1..], t1, clocks)
  }

  // Every record keeps the bits of its deltas when its thread's encoder comes to it.
  predicate ItemCarries(item: Item, encs: Encoders) {
    item.Handed? ==> AllCarry(item.chunk.es, EncoderFor(encs, item.tid))
  }

  predicate ItemsCarry(items: seq<Item>, encs: Encoders) {
    items == [] || (ItemCarries(items[0], encs) && ItemsCarry(items[1..], EncodersAfter(items[0], encs)))
  }

  // Sizes are below 2^57, and tokens below 2^60.
  predicate ModestItem(item: Item) {
    item.Handed? ==> forall e :: e in item.chunk.es ==> Modest(e)
  }

  // That is enough.
  lemma {:induction false} ModestItemsCarry(items: seq<Item>, encs: Encoders)
    requires (forall tid :: ModestState(EncoderFor(encs, tid))) && forall item :: item in items ==> ModestItem(item)
    ensures ItemsCarry(items, encs)
  {
    if items != [] {
      var item := items[0];
      assert ModestItem(item);
      if item.Handed? {
        assert ModestState(EncoderFor(encs, item.tid));
        ModestAllCarry(item.chunk.es, EncoderFor(encs, item.tid));
      }
      var after := EncodersAfter(item, encs);
      forall tid ensures ModestState(EncoderFor(after, tid)) {
        assert ModestState(EncoderFor(encs, tid));
      }
      ModestItemsCarry(items[1..], after);
    }
  }

  // Every thread's encoder and decoder have the same previous values.
  ghost predicate AllInStep(encs: Encoders, t: Trace, clocks: Clocks) {
    forall tid :: InStep(EncoderFor(encs, tid), DecoderFor(t, tid, clocks))
  }

  lemma ChunkDecodes(c: Chunk, st: EncState, d: DecState)
    requires InStep(st, d) && AllCarry(c.es, st)
    ensures var (bytes, st1) := EncodeRecords(c.es, st);
            && DecodeBufs([Buf(c.ts, c.cpu, bytes)], d) == Some((EventsOf(c.es, d), AfterChunk(c, d)))
            && InStep(st1, AfterChunk(c, d))
  {
    RecordsRoundTrip(c.es, st, d);
    var b := Buf(c.ts, c.cpu, EncodeRecords(c.es, st).0);
    assert [b][1..] == [];
    assert DecodeBufs([], Leave(After(c.es, d), b)) == Some(([], AfterChunk(c, d)));
    assert EventsOf(c.es, d) + [] == EventsOf(c.es, d);
  }

  // A chunk that was handed over is read as what it means.
  lemma ChunkRead(tid: u64, c: Chunk, encs: Encoders, t: Trace, clocks: Clocks)
    requires ItemCarries(Handed(tid, c), encs) && AllInStep(encs, t, clocks)
    ensures var item := Handed(tid, c);
            && TakeIn(t, RecordOf(item, encs), clocks) == Understand(item, t, clocks)
            && (tid !in t.dead ==> AllInStep(EncodersAfter(item, encs), Understand(item, t, clocks).value, clocks))
  {
    var item, st, d := Handed(tid, c), EncoderFor(encs, tid), DecoderFor(t, tid, clocks);
    assert InStep(st, d);
    ChunkDecodes(c, st, d);
    if tid !in t.dead {
      ChunkInStep(encs, t, clocks, tid, EncodeRecords(c.es, st).1, AfterChunk(c, d), Understand(item, t, clocks).value);
    }
  }

  lemma ChunkInStep(encs: Encoders, t: Trace, clocks: Clocks, tid: Tid, st: EncState, d: DecState, t1: Trace)
    requires AllInStep(encs, t, clocks) && t1.decs == t.decs[tid := d] && InStep(st, d)
    ensures AllInStep(encs[tid := st], t1, clocks)
  {
    forall u
      ensures InStep(EncoderFor(encs[tid := st], u), DecoderFor(t1, u, clocks))
    {
      assert InStep(EncoderFor(encs, u), DecoderFor(t, u, clocks));
    }
  }

  // The record of an item at the head of a file.
  lemma HeadRead(ev: OuterEvent, rest: seq<OuterEvent>)
    requires Writable(ev) && forall e :: e in rest ==> Writable(e)
    ensures (forall e :: e in [ev] + rest ==> Writable(e)) && ReadOuter(FileOf([ev] + rest)) == More(ev, FileOf(rest))
  {
    var t := FileOf(rest);
    var all := Record(ev) + t;
    assert ([ev] + rest)[1..] == rest;
    RecordCut(ev, t, |all|);
    assert all[..|all|] == all;
    assert t[..|t|] == t;
  }

  lemma HeadTaken(ev: OuterEvent, rest: seq<OuterEvent>, t: Trace, clocks: Clocks)
    requires Writable(ev) && forall e :: e in rest ==> Writable(e)
    ensures forall e :: e in [ev] + rest ==> Writable(e)
    ensures TraceFrom(FileOf([ev] + rest), t, clocks) ==
            if ev.End? then Some(EndOfRound(t))
            else if ev.SyncBarrier? then TraceFrom(FileOf(rest), EndOfRound(t), clocks)
            else match TakeIn(t, ev, clocks)
              case None => None
              case Some(t1) => TraceFrom(FileOf(rest), t1, clocks)
  {
    HeadRead(ev, rest);
  }

  // An item that is not a barrier is taken in as what it means.
  lemma ItemRead(item: Item, encs: Encoders, t: Trace, clocks: Clocks)
    requires !item.Synced? && ItemCarries(item, encs) && AllInStep(encs, t, clocks)
    ensures TakeIn(t, RecordOf(item, encs), clocks) == Understand(item, t, clocks)
    ensures Understand(item, t, clocks).Some? ==>
              AllInStep(EncodersAfter(item, encs), Understand(item, t, clocks).value, clocks)
  {
    if item.Handed? {
      ChunkRead(item.tid, item.chunk, encs, t, clocks);
    } else if Understand(item, t, clocks).Some? {
      SameInStep(encs, t, clocks, Understand(item, t, clocks).value);
    }
  }

  lemma SameInStep(encs: Encoders, t: Trace, clocks: Clocks, t1: Trace)
    requires AllInStep(encs, t, clocks) && t1.decs == t.decs
    ensures AllInStep(encs, t1, clocks)
  {
    forall u ensures InStep(EncoderFor(encs, u), DecoderFor(t1, u, clocks)) {
      assert InStep(EncoderFor(encs, u), DecoderFor(t, u, clocks));
    }
  }

  // The file of a session is read as what the session means.
  lemma {:induction false} SessionRoundTrip(items: seq<Item>, encs: Encoders, t: Trace, clocks: Clocks)
    requires AllInStep(encs, t, clocks) && ItemsCarry(items, encs)
    requires forall ev :: ev in RecordsOf(items, encs) ==> Writable(ev)
    ensures TraceFrom(FileOf(RecordsOf(items, encs)), t, clocks) == UnderstandAll(items, t, clocks)
  {
    if items == [] {
      HeadTaken(End, [], t, clocks);
      assert [End] + [] == [End];
    } else {
      var item, more := items[0], RecordsOf(items[1..], EncodersAfter(items[0], encs));
      HeadTaken(RecordOf(item, encs), more, t, clocks);
      if item.Synced? {
        SameInStep(encs, t, clocks, EndOfRound(t));
        SessionRoundTrip(items[1..], encs, EndOfRound(t), clocks);
      } else {
        ItemRead(item, encs, t, clocks);
        if Understand(item, t, clocks).Some? {
          SessionRoundTrip(items[1..], EncodersAfter(item, encs), Understand(item, t, clocks).value, clocks);
        }
      }
    }
  }

  // ---------- What is delivered ----------

  // What a thread handed over in a session.
  function ChunksOf(items: seq<Item>, tid: Tid): seq<Chunk> {
    if items == [] then []
    else if items[0].Handed? && items[0].tid == tid then [items[0].chunk] + ChunksOf(items[1..], tid)
    else ChunksOf(items[1..], tid)
  }

  function ProgramOf(t: Trace, tid: Tid): seq<Timed> {
    if tid in t.prog then t.prog[tid] else []
  }

  // What one item adds to the events of a thread.
  lemma ItemAdds(item: Item, t: Trace, clocks: Clocks, tid: Tid)
    requires !item.Synced? && Understand(item, t, clocks).Some?
    ensures var t1, d := Understand(item, t, clocks).value, DecoderFor(t, tid, clocks);
            if item.Handed? && item.tid == tid then
              && ProgramOf(t1, tid) == ProgramOf(t, tid) + EventsOf(item.chunk.es, d)
              && DecoderFor(t1, tid, clocks) == AfterChunk(item.chunk, d)
            else ProgramOf(t1, tid) == ProgramOf(t, tid) && DecoderFor(t1, tid, clocks) == d
  {
  }

  lemma ChunkFirst(c: Chunk, cs: seq<Chunk>, d: DecState, before: seq<Timed>)
    ensures before + EventsOf(c.es, d) + EventsOfChunks(cs, AfterChunk(c, d)) == before + EventsOfChunks([c] + cs, d)
  {
    var evs, more := EventsOf(c.es, d), EventsOfChunks(cs, AfterChunk(c, d));
    assert ([c] + cs)[1..] == cs;
    assert before + evs + more == before + (evs + more);
  }

  // A thread's events in the trace are those of the chunks it handed over, in order.
  lemma {:induction false} ThreadOfSession(items: seq<Item>, t: Trace, clocks: Clocks, tid: Tid)
    requires UnderstandAll(items, t, clocks).Some?
    ensures var f := UnderstandAll(items, t, clocks).value;
            ProgramOf(f, tid) == ProgramOf(t, tid) + EventsOfChunks(ChunksOf(items, tid), DecoderFor(t, tid, clocks))
  {
    if items != [] {
      var item := items[0];
      if item.Synced? {
        ThreadOfSession(items[1..], EndOfRound(t), clocks, tid);
      } else {
        ItemAdds(item, t, clocks, tid);
        ThreadOfSession(items[1..], Understand(item, t, clocks).value, clocks, tid);
        if item.Handed? {
          ChunkFirst(item.chunk, ChunksOf(items[1..], tid), DecoderFor(t, tid, clocks), ProgramOf(t, tid));
        }
      }
    }
  }

  function FileOfSession(items: seq<Item>): seq<byte>
    requires forall ev :: ev in RecordsOf(items, map[]) ==> Writable(ev)
  {
    MAGIC + FileOf(RecordsOf(items, map[]))
  }

  // The events of a thread, from the state its decoder starts in.
  function EventsOfThread(items: seq<Item>, clocks: Clocks, tid: Tid): seq<Timed> {
    EventsOfChunks(ChunksOf(items, tid), DecoderFor(NOTHING, tid, clocks))
  }

  // The file of a session can be serialized, if its events are well formed, and its threads do in
  // the trace what they did in the session.
  lemma SessionIsAcceptable(items: seq<Item>, clocks: Clocks)
    requires ItemsCarry(items, map[])
    requires forall ev :: ev in RecordsOf(items, map[]) ==> Writable(ev)
    requires UnderstandAll(items, NOTHING, clocks).Some? && WellFormed(UnderstandAll(items, NOTHING, clocks).value.prog)
    ensures var data := FileOfSession(items);
            && HasMagic(data) && Acceptable(data, clocks)
            && TraceFrom(data[|MAGIC|..], NOTHING, clocks) == UnderstandAll(items, NOTHING, clocks)
  {
    var data := FileOfSession(items);
    assert data[|MAGIC|..] == FileOf(RecordsOf(items, map[]));
    SessionRoundTrip(items, map[], NOTHING, clocks);
  }

  // If the events of a session can be ordered legally at all, then whatever run the serializer makes
  // of its file, the receiver hears every event of every thread, in the thread's own order and with
  // the time and cpu it happened at, and no thread is left asleep.
  lemma SessionIsDelivered(items: seq<Item>, clocks: Clocks, ops: seq<Op>, s: State, h: seq<Tid>, tid: Tid)
    requires UnderstandAll(items, NOTHING, clocks).Some? && s.prog == UnderstandAll(items, NOTHING, clocks).value.prog
    requires Run(Init(), ops, s) && s.heap == multiset{}
    requires Legal(s.prog, h) && forall u :: u in s.prog ==> Count(h, u) == |s.prog[u]|
    ensures tid in s.prog ==> Of(Heard(s.log), tid) == EventsOfThread(items, clocks, tid)
    ensures s.sleepers == {} && s.pendingFrees == map[]
  {
    assert Reachable(s);
    BarrierIsComplete(s, h);
    ThreadOfSession(items, NOTHING, clocks, tid);
    var evs := EventsOfThread(items, clocks, tid);
    assert [] + evs == evs;
    if tid in s.prog {
      HeardInOrder(s, tid);
    }
  }
}
