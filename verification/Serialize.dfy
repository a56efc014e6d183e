/** Serializing a whole trace file. */
module SerializeTraces {
  import opened Wrappers
  import opened Words
  import opened Events
  import opened History
  import opened Machine
  import opened MachineTheorems
  import opened Varint
  import opened TraceCodec
  import opened ThreadCodec
  import opened MemStreams
  import opened OuterStream
  import opened Serializers
  import Receiver

  const MAGIC: seq<byte> := [0xE4, 0x63, 0xBD, 0x6C]

  // What the records of a file amount to: what every thread does, who died, the decoder of every
  // thread behind its last buffer, and what arrives when.
  datatype Trace = Trace(prog: Program, dead: set<Tid>, decs: map<Tid, DecState>, inputs: seq<Op>)

  const NOTHING := Trace(map[], {}, map[], [])

  // What the clock of the object made for a thread happens to hold.
  type Clocks = Tid -> (u64, u64)

  function DecoderFor(t: Trace, tid: Tid, clocks: Clocks): DecState {
    if tid in t.decs then t.decs[tid] else DecState(0, 0, 0, clocks(tid).0, clocks(tid).1)
  }

  // A buffer or a death is taken in, unless it cannot be decoded, comes behind the death of its
  // thread, or is the death of a thread nobody has heard of.
  function TakeIn(t: Trace, ev: OuterEvent, clocks: Clocks): Option<Trace>
    requires ev.Buffer? || ev.Death?
  {
    if ev.tid in t.dead then None
    else match ev
      case Buffer(tid, ts, cpu, bytes) =>
        (match DecodeBufs([Buf(ts, cpu, bytes)], DecoderFor(t, tid, clocks))
         case None => None
         case Some((evs, end)) =>
           Some(Trace(Extend(t.prog, tid, evs), t.dead, t.decs[tid := end], t.inputs + [OpArrive(tid, evs)])))
      case Death(tid, _, _) =>
        if tid in t.prog then Some(t.(dead := t.dead + {tid}, inputs := t.inputs + [OpDie(tid)])) else None
  }

  function EndOfRound(t: Trace): Trace {
    t.(inputs := t.inputs + [OpReap])
  }

  // The records left in a file, on top of those read before.  The end of the file ends a round too.
  function TraceFrom(s: seq<byte>, t: Trace, clocks: Clocks): Option<Trace>
    decreases |s|
  {
    match ReadOuter(s)
    case Panic => None
    case NoMore => Some(EndOfRound(t))
    case More(ev, rest) =>
      if ev.End? then Some(EndOfRound(t))
      else if ev.SyncBarrier? then TraceFrom(rest, EndOfRound(t), clocks)
      else match TakeIn(t, ev, clocks)
        case None => None
        case Some(t1) => TraceFrom(rest, t1, clocks)
  }

  predicate HasMagic(data: seq<byte>) {
    MAGIC <= data
  }

  // A file that can be serialized: its records can be taken in, and its events are well formed.
  ghost predicate Acceptable(data: seq<byte>, clocks: Clocks) {
    HasMagic(data) ==>
      TraceFrom(data[|MAGIC|..], NOTHING, clocks).Some? && WellFormed(TraceFrom(data[|MAGIC|..], NOTHING, clocks).value.prog)
  }

  // ---------- Reading further only adds events ----------

  lemma TakeInExtends(t: Trace, ev: OuterEvent, clocks: Clocks)
    requires (ev.Buffer? || ev.Death?) && TakeIn(t, ev, clocks).Some?
    ensures Extends(t.prog, TakeIn(t, ev, clocks).value.prog)
  {
  }

  lemma {:induction false} TraceExtends(s: seq<byte>, t: Trace, clocks: Clocks)
    requires TraceFrom(s, t, clocks).Some?
    ensures Extends(t.prog, TraceFrom(s, t, clocks).value.prog)
    decreases |s|
  {
    match ReadOuter(s)
    case Panic =>
    case NoMore =>
    case More(ev, rest) =>
      if ev.SyncBarrier? {
        TraceExtends(rest, EndOfRound(t), clocks);
      } else if !ev.End? {
        var t1 := TakeIn(t, ev, clocks).value;
        TakeInExtends(t, ev, clocks);
        TraceExtends(rest, t1, clocks);
      }
  }

  lemma PartIsWellFormed(p: Program, q: Program)
    requires Extends(p, q) && WellFormed(q)
    ensures WellFormed(p)
  {
    forall t, i, k | GivesAt(p, t, i, k) ensures GivesAt(q, t, i, k) {
    }
    forall t, i, k | TakesAt(p, t, i, k) ensures TakesAt(q, t, i, k) {
    }
  }

  // ---------- The program ----------

  // The serializer has taken in what t says.
  ghost predicate Tracks(z: Serializer, s: State, ops: seq<Op>, t: Trace)
    reads z, z.receiver, z.receiver.idsSpace, z.repr
  {
    && z.Valid(s, ops) && s.prog == t.prog && s.dead == t.dead && z.decs == t.decs && Inputs(ops) == t.inputs
    && (forall tid :: tid in t.decs <==> tid in t.prog)
  }

  // The reader of the file is none of the serializer's objects.
  ghost predicate Apart(z: Serializer, file: MemStream)
    reads z, file
  {
    file !in z.repr && file.Valid()
  }

  // The records left in the file lead from t to final.
  ghost predicate LeadsTo(bytes: seq<byte>, t: Trace, clocks: Clocks, final: Trace) {
    TraceFrom(bytes, t, clocks) == Some(final) && WellFormed(final.prog)
  }

  method TakeBuffer(z: Serializer, ev: OuterEvent, clocks: Clocks, ghost s: State, ghost ops: seq<Op>, ghost t: Trace,
                    junk: seq<byte>)
    returns (ghost s1: State, ghost ops1: seq<Op>)
    requires Tracks(z, s, ops, t) && |junk| == MAX_SIZE && ev.Buffer? && TakeIn(t, ev, clocks).Some?
    requires WellFormed(TakeIn(t, ev, clocks).value.prog)
    modifies z, z.receiver, z.receiver.idsSpace, z.repr
    ensures Tracks(z, s1, ops1, TakeIn(t, ev, clocks).value)
    ensures forall o :: o in z.repr ==> o in old(z.repr) || fresh(o)
  {
    hide Serializer.Valid, Run;
    ghost var (evs, end) := DecodeBufs([Buf(ev.ts, ev.cpu, ev.bytes)], DecoderFor(t, ev.tid, clocks)).value;
    s1, ops1 := Arrive(s, ev.tid, evs), ops + [OpArrive(ev.tid, evs)];
    InputsSnoc(ops, OpArrive(ev.tid, evs));
    DecoderKnown(z, s, ops, t, ev.tid, clocks);
    z.HandleBuffer(ev.tid, Buf(ev.ts, ev.cpu, ev.bytes), clocks(ev.tid).0, clocks(ev.tid).1, s, ops, evs, end, junk);
  }

  // The serializer's decoder for a thread is that of the trace.
  lemma DecoderKnown(z: Serializer, s: State, ops: seq<Op>, t: Trace, tid: Tid, clocks: Clocks)
    requires Tracks(z, s, ops, t) && tid !in t.dead
    ensures z.DecoderOf(tid, clocks(tid).0, clocks(tid).1) == DecoderFor(t, tid, clocks)
  {
    LiveAreListed(ops, s, tid);
  }

  lemma LiveAreListed(ops: seq<Op>, s: State, t: Tid)
    requires Run(Init(), ops, s) && t !in s.dead
    ensures t in s.threads <==> t in s.prog
  {
    assert Reachable(s);
    ReachableInv(s);
  }

  method TakeDeath(z: Serializer, ev: OuterEvent, clocks: Clocks, ghost s: State, ghost ops: seq<Op>, ghost t: Trace)
    returns (ghost s1: State, ghost ops1: seq<Op>)
    requires Tracks(z, s, ops, t) && ev.Death? && TakeIn(t, ev, clocks).Some?
    modifies z, z.receiver, z.receiver.idsSpace, z.repr
    ensures Tracks(z, s1, ops1, TakeIn(t, ev, clocks).value)
    ensures forall o :: o in z.repr ==> o in old(z.repr) || fresh(o)
  {
    hide Serializer.Valid, Run;
    s1, ops1 := Die(s, ev.tid), ops + [OpDie(ev.tid)];
    InputsSnoc(ops, OpDie(ev.tid));
    z.HandleDeath(ev.tid, s, ops);
  }

  // Takes in the records of one round.
  method ReadRound(z: Serializer, file: MemStream, clocks: Clocks, ghost s: State, ghost ops: seq<Op>, ghost t: Trace,
                   ghost final: Trace, junk: seq<byte>)
    returns (seenEnd: bool, ghost s1: State, ghost ops1: seq<Op>, ghost t1: Trace)
    requires Tracks(z, s, ops, t) && Apart(z, file) && LeadsTo(file.Rest(), t, clocks, final) && |junk| == MAX_SIZE
    modifies z, z.receiver, z.receiver.idsSpace, z.repr, file
    ensures Tracks(z, s1, ops1, t1) && Apart(z, file)
    ensures forall o :: o in z.repr ==> o in old(z.repr) || fresh(o)
    ensures if seenEnd then EndOfRound(t1) == final
            else |file.Rest()| < old(|file.Rest()|) && LeadsTo(file.Rest(), EndOfRound(t1), clocks, final)
  {
    hide Serializer.Valid, Run;
    seenEnd, s1, ops1, t1 := false, s, ops, t;
    while true
      invariant Tracks(z, s1, ops1, t1) && Apart(z, file) && LeadsTo(file.Rest(), t1, clocks, final)
      invariant |file.Rest()| <= old(|file.Rest()|)
      invariant forall o :: o in z.repr ==> o in old(z.repr) || fresh(o)
      decreases |file.Rest()|
    {
      var ev, panicked := OuterStream.Next(file, junk);
      if ev == None || ev.value.End? {
        seenEnd := true;
        return;
      }
      if ev.value.SyncBarrier? {
        return;
      }
      ghost var t2 := TakeIn(t1, ev.value, clocks).value;
      TraceExtends(file.Rest(), t2, clocks);
      PartIsWellFormed(t2.prog, final.prog);
      if ev.value.Buffer? {
        s1, ops1 := TakeBuffer(z, ev.value, clocks, s1, ops1, t1, junk);
      } else {
        s1, ops1 := TakeDeath(z, ev.value, clocks, s1, ops1, t1);
      }
      t1 := t2;
    }
  }

  // Delivers what can be delivered, and ends the round.
  method FinishRound(z: Serializer, ghost s: State, ghost ops: seq<Op>, ghost t: Trace, junk: seq<byte>)
    returns (ghost s1: State, ghost ops1: seq<Op>)
    requires Tracks(z, s, ops, t) && |junk| == MAX_SIZE
    modifies z, z.receiver, z.receiver.idsSpace, z.repr
    ensures Tracks(z, s1, ops1, EndOfRound(t)) && s1.heap == multiset{}
    ensures forall o :: o in z.repr ==> o in old(z.repr) || fresh(o)
  {
    hide Serializer.Valid, Run;
    ghost var m, done := z.Drain(s, ops, junk);
    InputsSnoc(done, OpReap);
    ops1 := done + [OpReap];
    s1 := z.EndRound(m, done);
  }

  // One round.
  method Round(z: Serializer, file: MemStream, clocks: Clocks, ghost s: State, ghost ops: seq<Op>, ghost t: Trace,
               ghost final: Trace, junk: seq<byte>)
    returns (seenEnd: bool, ghost s1: State, ghost ops1: seq<Op>, ghost t1: Trace)
    requires Tracks(z, s, ops, t) && Apart(z, file) && LeadsTo(file.Rest(), t, clocks, final) && |junk| == MAX_SIZE
    modifies z, z.receiver, z.receiver.idsSpace, z.repr, file
    ensures Tracks(z, s1, ops1, t1) && Apart(z, file) && s1.heap == multiset{}
    ensures forall o :: o in z.repr ==> o in old(z.repr) || fresh(o)
    ensures if seenEnd then t1 == final
            else |file.Rest()| < old(|file.Rest()|) && LeadsTo(file.Rest(), t1, clocks, final)
  {
    hide Serializer.Valid, Run;
    ghost var m, done, t0;
    seenEnd, m, done, t0 := ReadRound(z, file, clocks, s, ops, t, final, junk);
    s1, ops1 := FinishRound(z, m, done, t0, junk);
    t1 := EndOfRound(t0);
  }

  // Checks the first bytes of a file.
  method ReadMagic(file: MemStream) returns (panicked: bool)
    requires file.Valid() && file.ptr == 0
    modifies file
    ensures panicked <==> !HasMagic(file.data)
    ensures !panicked ==> file.Valid() && file.Rest() == file.data[|MAGIC|..]
  {
    var start;
    start, panicked := file.AdvanceBy(|MAGIC|);
    if !panicked {
      panicked := file.data[start..start + |MAGIC|] != MAGIC;
    }
  }

  // Serializes a file.  The program has then made a run of the state machine whose inputs are the
  // records of the file, and which ends with the last round.
  method SerializeMallocEvents(data: seq<byte>, clocks: Clocks, junk: seq<byte>)
    returns (z: Serializer, panicked: bool, ghost s: State, ghost ops: seq<Op>)
    requires Acceptable(data, clocks) && |junk| == MAX_SIZE
    ensures panicked <==> !HasMagic(data)
    ensures !panicked ==> Tracks(z, s, ops, TraceFrom(data[|MAGIC|..], NOTHING, clocks).value) && s.heap == multiset{}
    ensures fresh(z) && fresh(z.receiver) && fresh(z.receiver.idsSpace)
  {
    hide Serializer.Valid, Run;
    z := new Serializer();
    s, ops := Init(), [];
    var file := new MemStream(data, null);
    panicked := ReadMagic(file);
    if panicked {
      return;
    }
    ghost var t, final := NOTHING, TraceFrom(data[|MAGIC|..], NOTHING, clocks).value;
    var seenEnd := false;
    while !seenEnd
      invariant Tracks(z, s, ops, t) && Apart(z, file)
      invariant fresh(file) && forall o :: o in z.repr ==> fresh(o)
      invariant if seenEnd then t == final && s.heap == multiset{} else LeadsTo(file.Rest(), t, clocks, final)
      decreases !seenEnd, |file.Rest()|
    {
      seenEnd, s, ops, t := Round(z, file, clocks, s, ops, t, final, junk);
    }
  }
}
