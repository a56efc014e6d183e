/** What is delivered depends on nothing but the bytes of the trace. */
module Determinism {
  import opened Wrappers
  import opened Words
  import opened Events
  import opened History
  import opened Machine
  import opened MachineTheorems
  import opened Varint
  import opened TraceCodec
  import opened ThreadCodec
  import opened OuterStream
  import opened Serializers
  import opened SerializeTraces

  // The same events, at whatever times, and decoders that differ in their clocks only.
  ghost predicate Alike(r: Option<(seq<Timed>, DecState)>, q: Option<(seq<Timed>, DecState)>) {
    match (r, q)
    case (None, None) => true
    case (Some((xs, d)), Some((ys, f))) => SameEvs(xs, ys) && SameButClock(d, f)
    case _ => false
  }

  ghost predicate SameEvs(xs: seq<Timed>, ys: seq<Timed>) {
    |xs| == |ys| && forall i :: 0 <= i < |xs| ==> xs[i].ev == ys[i].ev
  }

  lemma DecodeEventAlike(first: u64, second: u64, d: DecState, f: DecState)
    requires IsInnerKind(DecodeType(first)) && SameButClock(d, f)
    ensures DecodeEvent(first, second, d).0 == DecodeEvent(first, second, f).0
    ensures SameButClock(DecodeEvent(first, second, d).1, DecodeEvent(first, second, f).1)
  {
  }

  lemma ReadInnerAlike(s: seq<byte>, d: DecState, f: DecState)
    requires SameButClock(d, f)
    ensures match (ReadInner(s, d), ReadInner(s, f))
            case (Bad, Bad) => true
            case (Tick(r, d1), Tick(q, f1)) => r == q && SameButClock(d1, f1)
            case (Got(e, r, d1), Got(g, q, f1)) => e == g && r == q && SameButClock(d1, f1)
            case _ => false
  {
    if Parse(s).Some? {
      var first, s1 := Parse(s).value.value, s[Parse(s).value.advance..];
      if IsInnerKind(DecodeType(first)) {
        DecodeEventAlike(first, 0, d, f);
        if Parse(s1).Some? {
          DecodeEventAlike(first, Parse(s1).value.value, d, f);
        }
      }
    }
  }

  lemma {:induction false} DecodeStreamAlike(s: seq<byte>, d: DecState, f: DecState)
    requires SameButClock(d, f)
    ensures Alike(DecodeStream(s, d), DecodeStream(s, f))
    decreases |s|
  {
    if s != [] {
      ReadInnerAlike(s, d, f);
      match (ReadInner(s, d), ReadInner(s, f))
      case (Bad, Bad) =>
      case (Tick(r, d1), Tick(_, f1)) => DecodeStreamAlike(r, d1, f1);
      case (Got(_, r, d1), Got(_, _, f1)) => DecodeStreamAlike(r, d1, f1);
    }
  }

  lemma DecodeBufAlike(b: Buf, d: DecState, f: DecState)
    requires SameButClock(d, f)
    ensures Alike(DecodeBufs([b], d), DecodeBufs([b], f))
  {
    DecodeStreamAlike(b.bytes, d, f);
    assert [b][1..] == [];
  }

  // Traces of the same events, read with decoders that may have started with different clocks.
  ghost predicate SameTrace(t: Trace, c: Clocks, u: Trace, k: Clocks) {
    && t.dead == u.dead && SameEvents(t.prog, u.prog)
    && forall tid :: SameButClock(DecoderFor(t, tid, c), DecoderFor(u, tid, k))
  }

  lemma ExtendAlike(p: Program, q: Program, tid: Tid, xs: seq<Timed>, ys: seq<Timed>)
    requires SameEvents(p, q) && SameEvs(xs, ys)
    ensures SameEvents(Extend(p, tid, xs), Extend(q, tid, ys))
  {
  }

  lemma DecodersAlike(t: Trace, c: Clocks, u: Trace, k: Clocks, tid: Tid, d: DecState, f: DecState, t1: Trace, u1: Trace)
    requires SameTrace(t, c, u, k) && SameButClock(d, f)
    requires t1.decs == t.decs[tid := d] && u1.decs == u.decs[tid := f]
    ensures forall v :: SameButClock(DecoderFor(t1, v, c), DecoderFor(u1, v, k))
  {
    forall v ensures SameButClock(DecoderFor(t1, v, c), DecoderFor(u1, v, k)) {
      assert SameButClock(DecoderFor(t, v, c), DecoderFor(u, v, k));
    }
  }

  lemma TakeInAlike(t: Trace, c: Clocks, u: Trace, k: Clocks, ev: OuterEvent)
    requires SameTrace(t, c, u, k) && (ev.Buffer? || ev.Death?)
    ensures TakeIn(t, ev, c).Some? <==> TakeIn(u, ev, k).Some?
    ensures TakeIn(t, ev, c).Some? ==> SameTrace(TakeIn(t, ev, c).value, c, TakeIn(u, ev, k).value, k)
  {
    if ev.Buffer? && ev.tid !in t.dead {
      var b, d, f := Buf(ev.ts, ev.cpu, ev.bytes), DecoderFor(t, ev.tid, c), DecoderFor(u, ev.tid, k);
      assert SameButClock(d, f);
      DecodeBufAlike(b, d, f);
      if TakeIn(t, ev, c).Some? {
        var (xs, d1) := DecodeBufs([b], d).value;
        var (ys, f1) := DecodeBufs([b], f).value;
        ExtendAlike(t.prog, u.prog, ev.tid, xs, ys);
        DecodersAlike(t, c, u, k, ev.tid, d1, f1, TakeIn(t, ev, c).value, TakeIn(u, ev, k).value);
      }
    } else if ev.Death? && TakeIn(t, ev, c).Some? {
      SameDecoders(t, c, u, k, TakeIn(t, ev, c).value, TakeIn(u, ev, k).value);
    }
  }

  lemma SameDecoders(t: Trace, c: Clocks, u: Trace, k: Clocks, t1: Trace, u1: Trace)
    requires SameTrace(t, c, u, k) && t1.decs == t.decs && u1.decs == u.decs
    ensures forall v :: SameButClock(DecoderFor(t1, v, c), DecoderFor(u1, v, k))
  {
    forall v ensures SameButClock(DecoderFor(t1, v, c), DecoderFor(u1, v, k)) {
      assert SameButClock(DecoderFor(t, v, c), DecoderFor(u, v, k));
    }
  }

  lemma {:induction false} TraceAlike(s: seq<byte>, t: Trace, c: Clocks, u: Trace, k: Clocks)
    requires SameTrace(t, c, u, k)
    ensures TraceFrom(s, t, c).Some? <==> TraceFrom(s, u, k).Some?
    ensures TraceFrom(s, t, c).Some? ==> SameTrace(TraceFrom(s, t, c).value, c, TraceFrom(s, u, k).value, k)
    decreases |s|
  {
    SameDecoders(t, c, u, k, EndOfRound(t), EndOfRound(u));
    match ReadOuter(s)
    case Panic =>
    case NoMore =>
    case More(ev, rest) =>
      if ev.SyncBarrier? {
        TraceAlike(rest, EndOfRound(t), c, EndOfRound(u), k);
      } else if !ev.End? {
        TakeInAlike(t, c, u, k, ev);
        if TakeIn(t, ev, c).Some? {
          TraceAlike(rest, TakeIn(t, ev, c).value, c, TakeIn(u, ev, k).value, k);
        }
      }
  }

  // What the clocks of new thread objects happen to hold, how ties between timestamps are broken and
  // in what order threads wake up do not matter: whatever two runs the serializer makes of the same
  // bytes, they deliver the same events, leave the same tokens alive and the same threads asleep.
  lemma BytesDecide(bytes: seq<byte>, c: Clocks, k: Clocks, s: State, z: State)
    requires TraceFrom(bytes, NOTHING, c).Some? && s.prog == TraceFrom(bytes, NOTHING, c).value.prog
    requires TraceFrom(bytes, NOTHING, k).Some? && z.prog == TraceFrom(bytes, NOTHING, k).value.prog
    requires Reachable(s) && s.heap == multiset{} && Reachable(z) && z.heap == multiset{}
    ensures SameEvents(s.prog, z.prog)
    ensures forall t :: Count(s.sched, t) == Count(z.sched, t)
    ensures s.live == z.live
    ensures forall t :: t in s.sleepers <==> t in z.sleepers
  {
    TraceAlike(bytes, NOTHING, c, NOTHING, k);
    BarrierIsConfluent(s, z);
  }
}
