/** Everything that is decoded from words fits into words again when it is dumped. */
module Widths {
  import opened Wrappers
  import opened Words
  import opened Events
  import opened History
  import opened Calls
  import opened Machine
  import opened MachineInvariant
  import opened MachineTheorems
  import opened Varint
  import opened TraceCodec
  import opened ThreadCodec
  import opened OuterStream
  import opened SerializeTraces
  import Receiver
  import Replay
  import opened ReplayTraces

  predicate IsWord(x: int) {
    0 <= x < TWO64
  }

  predicate EventFits(ev: Event) {
    match ev
    case Malloc(tok, size) => IsWord(size)
    case Memalign(tok, size, align) => IsWord(size) && IsWord(align)
    case Realloc(_, _, newSize) => IsWord(newSize)
    case _ => true
  }

  predicate TimedFits(n: Timed) {
    EventFits(n.ev) && IsWord(n.ts) && IsWord(n.cpu)
  }

  ghost predicate ProgramFits(p: Program) {
    (forall t :: t in p ==> IsWord(t)) && (forall t, i :: t in p && 0 <= i < |p[t]| ==> TimedFits(p[t][i]))
  }

  predicate CallFits(c: Call) {
    match c
    case SwitchThread(t) => IsWord(t)
    case SetTS(ts, cpu) => IsWord(ts) && IsWord(cpu)
    case Do(ev) => EventFits(ev)
    case _ => true
  }

  ghost predicate CallsFit(log: seq<Call>) {
    forall i :: 0 <= i < |log| ==> CallFits(log[i])
  }

  // ---------- Decoding gives words ----------

  lemma DecodeEventFits(first: u64, second: u64, d: DecState)
    requires IsInnerKind(DecodeType(first))
    ensures DecodeEvent(first, second, d).0.Some? ==> EventFits(DecodeEvent(first, second, d).0.value)
  {
  }

  lemma {:induction false} DecodeStreamFits(s: seq<byte>, d: DecState)
    ensures DecodeStream(s, d).Some? ==> forall n :: n in DecodeStream(s, d).value.0 ==> TimedFits(n)
    decreases |s|
  {
    if s != [] {
      match ReadInner(s, d)
      case Bad =>
      case Tick(rest, after) => DecodeStreamFits(rest, after);
      case Got(ev, rest, after) =>
        GotFits(s, d);
        DecodeStreamFits(rest, after);
    }
  }

  lemma GotFits(s: seq<byte>, d: DecState)
    requires ReadInner(s, d).Got?
    ensures EventFits(ReadInner(s, d).ev)
  {
    var first, s1 := Parse(s).value.value, s[Parse(s).value.advance..];
    DecodeEventFits(first, 0, d);
    if Parse(s1).Some? {
      DecodeEventFits(first, Parse(s1).value.value, d);
    }
  }

  lemma DecodeBufFits(b: Buf, d: DecState)
    ensures DecodeBufs([b], d).Some? ==> forall n :: n in DecodeBufs([b], d).value.0 ==> TimedFits(n)
  {
    DecodeStreamFits(b.bytes, d);
    assert [b][1..] == [];
  }

  lemma ExtendFits(p: Program, t: Tid, evs: seq<Timed>)
    requires ProgramFits(p) && IsWord(t) && forall n :: n in evs ==> TimedFits(n)
    ensures ProgramFits(Extend(p, t, evs))
  {
  }

  lemma {:induction false} TraceFits(s: seq<byte>, t: Trace, clocks: Clocks)
    requires ProgramFits(t.prog)
    ensures TraceFrom(s, t, clocks).Some? ==> ProgramFits(TraceFrom(s, t, clocks).value.prog)
    decreases |s|
  {
    match ReadOuter(s)
    case Panic =>
    case NoMore =>
    case More(ev, rest) =>
      if ev.SyncBarrier? {
        TraceFits(rest, EndOfRound(t), clocks);
      } else if !ev.End? && TakeIn(t, ev, clocks).Some? {
        if ev.Buffer? {
          var b, d := Buf(ev.ts, ev.cpu, ev.bytes), DecoderFor(t, ev.tid, clocks);
          DecodeBufFits(b, d);
          ExtendFits(t.prog, ev.tid, DecodeBufs([b], d).value.0);
        }
        TraceFits(rest, TakeIn(t, ev, clocks).value, clocks);
      }
  }

  // ---------- The serializer passes them on ----------

  lemma EmitFits(s: State, t: Tid)
    requires ProgramFits(s.prog) && CallsFit(s.log) && s.Waiting(t)
    ensures CallsFit(Emit(s, t).log)
  {
    assert TimedFits(s.Head(t)) && IsWord(t);
  }

  lemma StepFits(s: State, e: Entry)
    requires ProgramFits(s.prog) && CallsFit(s.log) && s.Waiting(e.tid)
    ensures CallsFit(Step(s, e).log)
  {
    if !Blocked(s, e.tid) {
      EmitFits(s, e.tid);
      StepEffect(s, e);
    } else {
      StepEffect(s, e);
    }
  }

  lemma {:induction false} ReapEachFits(s: State, todo: seq<Tid>, kept: seq<Tid>)
    requires CallsFit(s.log) && forall t :: t in todo ==> IsWord(t)
    ensures CallsFit(ReapEach(s, todo, kept).log)
    decreases |todo|
  {
    if todo != [] {
      if todo[0] in s.sleepers {
        ReapEachFits(s, todo[1..], kept + [todo[0]]);
      } else {
        ReapEachFits(ReapOne(s, todo[0]), todo[1..], kept);
      }
    }
  }

  lemma ExecFits(s: State, op: Op)
    requires Inv(s) && Enabled(s, op) && ProgramFits(s.prog) && CallsFit(s.log)
    ensures CallsFit(Exec(s, op).log)
  {
    match op
    case OpArrive(t, evs) =>
    case OpDie(t) =>
    case OpPick(e) => StepFits(s, e);
    case OpReap => ReapEachFits(s, s.toDie, []);
  }

  // The program only grows.
  lemma ExecExtends(s: State, op: Op)
    requires Enabled(s, op)
    ensures Extends(s.prog, Exec(s, op).prog)
  {
    match op
    case OpArrive(t, evs) =>
    case OpDie(t) =>
    case OpPick(e) => StepEffect(s, e);
    case OpReap => ReapKeepsInputs(s);
  }

  lemma {:induction false} RunExtends(s: State, ops: seq<Op>, z: State)
    requires Run(s, ops, z)
    ensures Extends(s.prog, z.prog)
    decreases |ops|
  {
    if ops != [] {
      ExecExtends(s, ops[0]);
      RunExtends(Exec(s, ops[0]), ops[1..], z);
    }
  }

  lemma PartFits(p: Program, q: Program)
    requires Extends(p, q) && ProgramFits(q)
    ensures ProgramFits(p)
  {
    forall t, i | t in p && 0 <= i < |p[t]| ensures TimedFits(p[t][i]) {
      assert p[t][i] == q[t][i];
    }
  }

  lemma {:induction false} RunFits(s: State, ops: seq<Op>, z: State)
    requires Inv(s) && Run(s, ops, z) && ProgramFits(z.prog) && CallsFit(s.log)
    ensures CallsFit(z.log)
    decreases |ops|
  {
    if ops != [] {
      RunExtends(s, ops, z);
      PartFits(s.prog, z.prog);
      ExecFits(s, ops[0]);
      ExecKeeps(s, ops[0]);
      RunFits(Exec(s, ops[0]), ops[1..], z);
    }
  }

  // ---------- The receiver dumps them ----------

  // The words of an instruction fit; registers are another matter.
  predicate WordsFit(i: Replay.Instruction) {
    match i
    case MALLOC(_, size) => IsWord(size)
    case FREE_SIZED(_, size) => IsWord(size)
    case MEMALIGN(_, size, align) => IsWord(size) && IsWord(align)
    case REALLOC(_, _, newSize) => IsWord(newSize)
    case SWITCH_THREAD(tid) => IsWord(tid)
    case SET_TS_CPU(ts, cpu) => IsWord(ts) && IsWord(cpu)
    case _ => true
  }

  ghost predicate OutFits(out: seq<Replay.Instruction>) {
    forall k :: 0 <= k < |out| ==> WordsFit(out[k])
  }

  ghost predicate CellsFit(cells: Receiver.Cells) {
    forall t :: t in cells ==> IsWord(cells[t].size)
  }

  lemma HearEventFits(r: Receiver.State, ev: Event)
    requires OutFits(r.out) && CellsFit(r.cells) && EventFits(ev) && Receiver.Accepts(r, Do(ev))
    ensures OutFits(Receiver.Hear(r, Do(ev)).out) && CellsFit(Receiver.Hear(r, Do(ev)).cells)
  {
    match ev
    case Malloc(_, _) =>
    case Memalign(_, _, _) =>
    case Free(_) =>
    case FreeSized(_) =>
    case Realloc(_, _, _) =>
  }

  lemma HearMarkFits(r: Receiver.State, c: Call)
    requires OutFits(r.out) && CallFits(c) && !c.Do?
    ensures OutFits(Receiver.Hear(r, c).out) && Receiver.Hear(r, c).cells == r.cells
  {
  }

  lemma {:induction false} HearAllFits(log: seq<Call>)
    requires CallsFit(log)
    ensures OutFits(Receiver.HearAll(log).out) && CellsFit(Receiver.HearAll(log).cells)
  {
    if log != [] {
      var r, c := Receiver.HearAll(log[..|log| - 1]), log[|log| - 1];
      HearAllFits(log[..|log| - 1]);
      if c.Do? && Receiver.Accepts(r, c) {
        HearEventFits(r, c.ev);
      } else if !c.Do? {
        HearMarkFits(r, c);
      }
    }
  }

  lemma {:induction false} FreesFit(cells: Receiver.Cells, order: seq<Token>)
    requires forall k :: 0 <= k < |order| ==> order[k] in cells
    ensures OutFits(Receiver.FreesOf(cells, order))
  {
    if order != [] {
      FreesFit(cells, order[..|order| - 1]);
    }
  }
}
