/** What the written instructions say about the traced program, and what the receiver counts. */
module Retellings {
  import opened Wrappers
  import opened Events
  import opened History
  import opened Calls
  import opened Machine
  import opened MachineInvariant
  import opened MachineTheorems
  import opened LinkedLogs
  import IdTrees
  import Receiver
  import Replay

  // What an allocator call asks for, without naming objects.
  datatype Deed =
    | Got(size: int)
    | GotAligned(size: int, align: int)
    | Resized(size: int)
    | Gone

  function DeedOf(ev: Event): Deed {
    match ev
    case Malloc(_, size) => Got(size)
    case Memalign(_, size, align) => GotAligned(size, align)
    case Realloc(_, _, newSize) => Resized(newSize)
    case Free(_) => Gone
    case FreeSized(_) => Gone
  }

  // Who did something, when and where, and what it was.
  datatype Act = Act(tid: Tid, ts: int, cpu: int, deed: Deed)

  function ActOf(h: (Tid, Timed)): Act {
    Act(h.0, h.1.ts, h.1.cpu, DeedOf(h.1.ev))
  }

  function Tell(story: seq<(Tid, Timed)>): seq<Act> {
    if story == [] then [] else Tell(story[..|story| - 1]) + [ActOf(story[|story| - 1])]
  }

  // ---------- What replay is told ----------

  // What an instruction makes replay ask its allocator for, if anything.
  function DeedIn(i: Replay.Instruction): Option<Deed> {
    match i
    case MALLOC(_, size) => Some(Got(size))
    case MEMALIGN(_, size, align) => Some(GotAligned(size, align))
    case REALLOC(_, _, newSize) => Some(Resized(newSize))
    case FREE(_) => Some(Gone)
    case FREE_SIZED(_, _) => Some(Gone)
    case _ => None
  }

  // The time and cpu replay was last told.
  function ClockAfter(out: seq<Replay.Instruction>): (int, int) {
    if out == [] then (0, 0)
    else match out[|out| - 1]
      case SET_TS_CPU(ts, cpu) => (ts, cpu)
      case _ => ClockAfter(out[..|out| - 1])
  }

  // What replay does, on which thread and at what time.
  function Retold(out: seq<Replay.Instruction>): seq<Act> {
    if out == [] then []
    else
      var before := out[..|out| - 1];
      match DeedIn(out[|out| - 1])
      case None => Retold(before)
      case Some(deed) => Retold(before) + [Act(Replay.ThreadAfter(before), ClockAfter(before).0, ClockAfter(before).1, deed)]
  }

  lemma RetoldSnoc(out: seq<Replay.Instruction>, i: Replay.Instruction)
    ensures ClockAfter(out + [i]) == if i.SET_TS_CPU? then (i.ts, i.cpu) else ClockAfter(out)
    ensures Retold(out + [i]) ==
            Retold(out) + if DeedIn(i).Some? then [Act(Replay.ThreadAfter(out), ClockAfter(out).0, ClockAfter(out).1, DeedIn(i).value)] else []
  {
    assert (out + [i])[..|out|] == out;
  }

  lemma TellSnoc(story: seq<(Tid, Timed)>, h: (Tid, Timed))
    ensures Tell(story + [h]) == Tell(story) + [ActOf(h)]
  {
    assert (story + [h])[..|story|] == story;
  }

  // The instruction a call is turned into, if any, asks for what the call asked for.
  lemma HearWrites(r: Receiver.State, c: Call)
    requires Receiver.Accepts(r, c)
    ensures var out := Receiver.Hear(r, c).out;
            if c.Barrier? then out == r.out
            else
              && |out| == |r.out| + 1 && out[..|r.out|] == r.out
              && DeedIn(out[|r.out|]) == (if c.Do? then Some(DeedOf(c.ev)) else None)
              && (out[|r.out|].SET_TS_CPU? <==> c.SetTS?)
              && (c.SetTS? ==> out[|r.out|] == Replay.SET_TS_CPU(c.ts, c.cpu))
  {
  }

  ghost predicate Faithful(out: seq<Replay.Instruction>, log: seq<Call>) {
    ClockAfter(out) == Clock(log) && Retold(out) == Tell(Heard(log))
  }

  lemma HearIsFaithful(r: Receiver.State, log: seq<Call>, c: Call)
    requires Receiver.Accepts(r, c) && Faithful(r.out, log) && Replay.ThreadAfter(r.out) == Current(log)
    ensures Faithful(Receiver.Hear(r, c).out, log + [c])
  {
    var out := Receiver.Hear(r, c).out;
    HearWrites(r, c);
    LogSnoc(log, c);
    if !c.Barrier? {
      var i := out[|r.out|];
      assert out == r.out + [i];
      RetoldSnoc(r.out, i);
      if c.Do? {
        TellSnoc(Heard(log), (Current(log), Timed(c.ev, Clock(log).0, Clock(log).1)));
      }
    }
  }

  // Replay does what the receiver was told of, in that order, on the same threads and at the same
  // times, asking for the same sizes and alignments.
  lemma {:induction false} OutputIsFaithful(log: seq<Call>)
    requires Receiver.Orderly(log)
    ensures Faithful(Receiver.HearAll(log).out, log)
  {
    if log != [] {
      var before, c := log[..|log| - 1], log[|log| - 1];
      OutputIsFaithful(before);
      assert Replay.ThreadAfter(Receiver.HearAll(before).out) == Current(before) by {
        Receiver.HearAllKeeps(before);
      }
      assert Receiver.Accepts(Receiver.HearAll(before), c) by {
        Receiver.HearAllKeeps(log);
      }
      HearIsFaithful(Receiver.HearAll(before), before, c);
      assert log == before + [c];
    }
  }

  // After any run, replay does exactly what was delivered: a legal ordering of what the threads did,
  // each deed on its own thread, at its own time and on its own cpu.
  lemma TraceIsRetold(s: State)
    requires Reachable(s)
    ensures Legal(s.prog, s.sched)
    ensures Retold(Receiver.HearAll(s.log).out) == Tell(Told(s.prog, s.sched))
  {
    ReachableInv(s);
    ReachableFollowed(s);
    OutputIsFaithful(s.log);
  }

  // ---------- The objects of the traced program ----------

  // The sizes of the objects that are alive, as the events tell.
  function Sizes(log: seq<Call>): map<Token, int> {
    if log == [] then map[]
    else
      var m := Sizes(log[..|log| - 1]);
      match log[|log| - 1]
      case Do(Malloc(tok, size)) => m[tok := size]
      case Do(Memalign(tok, size, _)) => m[tok := size]
      case Do(Realloc(oldTok, newTok, newSize)) => (m - {oldTok})[newTok := newSize]
      case Do(Free(tok)) => m - {tok}
      case Do(FreeSized(tok)) => m - {tok}
      case _ => m
  }

  // The table knows the objects of the traced program and their sizes.
  ghost predicate Knows(cells: Receiver.Cells, sizes: map<Token, int>) {
    && (forall t :: t in cells <==> t in sizes)
    && (forall t :: t in cells ==> cells[t].size == sizes[t])
    && |cells| == |sizes|
  }

  lemma HearKnows(r: Receiver.State, log: seq<Call>, c: Call)
    requires Receiver.Accepts(r, c) && Knows(r.cells, Sizes(log))
    ensures Knows(Receiver.Hear(r, c).cells, Sizes(log + [c]))
  {
    assert (log + [c])[..|log|] == log;
    if c.Do? {
      match c.ev
      case Malloc(tok, size) => KnowsMore(r.cells, Sizes(log), tok, Receiver.Cell(IdTrees.LeastFree(r.ids), size));
      case Memalign(tok, size, _) => KnowsMore(r.cells, Sizes(log), tok, Receiver.Cell(IdTrees.LeastFree(r.ids), size));
      case Free(tok) => KnowsLess(r.cells, Sizes(log), tok);
      case FreeSized(tok) => KnowsLess(r.cells, Sizes(log), tok);
      case Realloc(oldTok, newTok, newSize) =>
        KnowsLess(r.cells, Sizes(log), oldTok);
        KnowsMore(r.cells - {oldTok}, Sizes(log) - {oldTok}, newTok, Receiver.Cell(IdTrees.LeastFree(r.ids), newSize));
    }
  }

  lemma KnowsMore(cells: Receiver.Cells, sizes: map<Token, int>, tok: Token, cell: Receiver.Cell)
    requires Knows(cells, sizes) && tok !in cells
    ensures Knows(cells[tok := cell], sizes[tok := cell.size])
  {
    SizeAdd(cells, tok, cell);
    SizeAdd(sizes, tok, cell.size);
  }

  lemma KnowsLess(cells: Receiver.Cells, sizes: map<Token, int>, tok: Token)
    requires Knows(cells, sizes) && tok in cells
    ensures Knows(cells - {tok}, sizes - {tok})
  {
    SizeDrop(cells, tok);
    SizeDrop(sizes, tok);
  }

  lemma {:induction false} TableKnows(log: seq<Call>)
    requires Receiver.Orderly(log)
    ensures Knows(Receiver.HearAll(log).cells, Sizes(log))
  {
    if log != [] {
      var before, c := log[..|log| - 1], log[|log| - 1];
      TableKnows(before);
      assert Receiver.Accepts(Receiver.HearAll(before), c) by {
        Receiver.HearAllKeeps(log);
      }
      HearKnows(Receiver.HearAll(before), before, c);
      assert log == before + [c];
    }
  }

  // A full register for each object, with its size in it, and no others.
  ghost predicate Mirrors(cells: Receiver.Cells, regs: Replay.Registers, sizes: map<Token, int>) {
    && (forall t :: t in sizes ==> t in cells && cells[t].reg in regs && regs[cells[t].reg] == sizes[t])
    && (forall t, u :: t in sizes && u in sizes && t in cells && u in cells && cells[t].reg == cells[u].reg ==> t == u)
    && |regs| == |sizes|
  }

  lemma OwnersMirror(cells: Receiver.Cells, regs: Replay.Registers, sizes: map<Token, int>)
    requires Receiver.Owners(cells, regs) && |cells| == |regs| && Knows(cells, sizes)
    ensures Mirrors(cells, regs, sizes)
  {
  }

  // At every moment replay holds an object for each live object of the traced program, of the same
  // size, in a register of its own, and holds no others.
  lemma ReplayMirrorsProgram(log: seq<Call>)
    requires Receiver.Orderly(log)
    ensures Mirrors(Receiver.HearAll(log).cells, Replay.RegsAfter(Receiver.HearAll(log).out), Sizes(log))
  {
    var r := Receiver.HearAll(log);
    assert Receiver.Owners(r.cells, Replay.RegsAfter(r.out)) && |r.cells| == |Replay.RegsAfter(r.out)| by {
      Receiver.HearAllKeeps(log);
    }
    TableKnows(log);
    OwnersMirror(r.cells, Replay.RegsAfter(r.out), Sizes(log));
  }

  // ---------- Call by call ----------

  // The register of every live object, as the calls and the instructions written for them tell.
  function Places(log: seq<Call>, out: seq<Replay.Instruction>): map<Token, nat> {
    if log == [] then map[]
    else
      var before, c := log[..|log| - 1], log[|log| - 1];
      if c.Barrier? || out == [] then Places(before, out)
      else Moved(c, out[|out| - 1], Places(before, out[..|out| - 1]))
  }

  function Moved(c: Call, i: Replay.Instruction, m: map<Token, nat>): map<Token, nat> {
    match (c, i)
    case (Do(Malloc(tok, _)), MALLOC(reg, _)) => m[tok := reg]
    case (Do(Memalign(tok, _, _)), MEMALIGN(reg, _, _)) => m[tok := reg]
    case (Do(Realloc(oldTok, newTok, _)), REALLOC(_, newReg, _)) => (m - {oldTok})[newTok := newReg]
    case (Do(Free(tok)), _) => m - {tok}
    case (Do(FreeSized(tok)), _) => m - {tok}
    case _ => m
  }

  ghost predicate Taken(places: map<Token, nat>, reg: nat) {
    exists t :: t in places && places[t] == reg
  }

  ghost predicate LowestFree(places: map<Token, nat>, reg: nat) {
    !Taken(places, reg) && forall r: nat :: r < reg ==> Taken(places, r)
  }

  // The instruction for a call, when the objects alive are at the given places and of the given sizes.
  // Allocations take the lowest register that is free, a realloc while it still holds the old one;
  // both kinds of free are written as a sized free of the object's register, with the object's size.
  ghost predicate Says(c: Call, i: Replay.Instruction, places: map<Token, nat>, sizes: map<Token, int>) {
    match c
    case SwitchThread(t) => i == Replay.SWITCH_THREAD(t)
    case SetTS(ts, cpu) => i == Replay.SET_TS_CPU(ts, cpu)
    case KillCurrentThread => i == Replay.KILL_THREAD
    case Barrier => false
    case Do(Malloc(tok, size)) => i.MALLOC? && i.size == size && LowestFree(places, i.reg)
    case Do(Memalign(tok, size, align)) => i.MEMALIGN? && i.size == size && i.align == align && LowestFree(places, i.reg)
    case Do(Free(tok)) => tok in places && tok in sizes && i == Replay.FREE_SIZED(places[tok], sizes[tok])
    case Do(FreeSized(tok)) => tok in places && tok in sizes && i == Replay.FREE_SIZED(places[tok], sizes[tok])
    case Do(Realloc(oldTok, newTok, newSize)) =>
      oldTok in places && i.REALLOC? && i.reg == places[oldTok] && i.newSize == newSize && LowestFree(places, i.newReg)
  }

  // out holds, in order, one instruction for every call but the barriers, and nothing else.
  ghost predicate Transcribes(log: seq<Call>, out: seq<Replay.Instruction>)
    decreases |log|
  {
    if log == [] then out == []
    else
      var before, c := log[..|log| - 1], log[|log| - 1];
      if c.Barrier? then Transcribes(before, out)
      else
        out != [] &&
        var sofar := out[..|out| - 1];
        Transcribes(before, sofar) && Says(c, out[|out| - 1], Places(before, sofar), Sizes(before))
  }

  // The table knows the places.
  ghost predicate Placed(cells: Receiver.Cells, places: map<Token, nat>) {
    (forall t :: t in cells <==> t in places) && forall t :: t in cells ==> places[t] == cells[t].reg
  }

  lemma LeastIsLowest(cells: Receiver.Cells, ids: set<nat>, regs: Replay.Registers, places: map<Token, nat>)
    requires Receiver.Matched(cells, ids, regs) && Placed(cells, places)
    ensures LowestFree(places, IdTrees.LeastFree(ids))
  {
    var reg := IdTrees.LeastFree(ids);
    forall r: nat | r < reg ensures Taken(places, r) {
      assert r in ids && r in regs;
      assert Receiver.Owned(cells, r);
      var t :| t in cells && cells[t].reg == r;
      assert places[t] == r;
    }
    assert forall t :: t in cells ==> cells[t].reg in regs;
    assert forall t :: t in places ==> places[t] in ids;
  }

  lemma HearSays(r: Receiver.State, c: Call, places: map<Token, nat>, sizes: map<Token, int>)
    requires Receiver.Accepts(r, c) && !c.Barrier? && Receiver.Matched(r.cells, r.ids, Replay.RegsAfter(r.out))
    requires Placed(r.cells, places) && Knows(r.cells, sizes)
    ensures var z := Receiver.Hear(r, c);
            && |z.out| == |r.out| + 1 && z.out[..|r.out|] == r.out
            && Says(c, z.out[|r.out|], places, sizes)
            && Placed(z.cells, Moved(c, z.out[|r.out|], places))
  {
    hide IdTrees.LeastFree, Replay.RegsAfter;
    hide Receiver.Matched, LowestFree;
    LeastIsLowest(r.cells, r.ids, Replay.RegsAfter(r.out), places);
  }

  lemma HearTranscribes(r: Receiver.State, log: seq<Call>, c: Call)
    requires Receiver.Accepts(r, c) && Receiver.Matched(r.cells, r.ids, Replay.RegsAfter(r.out))
    requires Transcribes(log, r.out) && Placed(r.cells, Places(log, r.out)) && Knows(r.cells, Sizes(log))
    ensures var z := Receiver.Hear(r, c); Transcribes(log + [c], z.out) && Placed(z.cells, Places(log + [c], z.out))
  {
    hide Receiver.Matched, Says, Moved, Sizes, Placed;
    assert (log + [c])[..|log|] == log;
    if c.Barrier? {
      BarrierWritesNothing(r);
    } else {
      HearSays(r, c, Places(log, r.out), Sizes(log));
    }
  }

  lemma BarrierWritesNothing(r: Receiver.State)
    ensures Receiver.Hear(r, Barrier).out == r.out && Receiver.Hear(r, Barrier).cells == r.cells
  {
  }

  ghost predicate Transcript(r: Receiver.State, log: seq<Call>) {
    Transcribes(log, r.out) && Placed(r.cells, Places(log, r.out))
  }

  lemma TranscriptGoesOn(log: seq<Call>, c: Call)
    requires Receiver.Orderly(log + [c]) && Transcript(Receiver.HearAll(log), log)
    ensures Transcript(Receiver.HearAll(log + [c]), log + [c])
  {
    hide Transcribes, Placed, Places, Sizes, Knows, Receiver.HearAll, Receiver.Orderly;
    var r := Receiver.HearAll(log);
    Receiver.HearAllSnoc(log, c);
    TableKnows(log);
    assert Receiver.Matched(r.cells, r.ids, Replay.RegsAfter(r.out)) by {
      Receiver.HearAllKeeps(log);
    }
    HearTranscribes(r, log, c);
  }

  // The output is a transcript of the calls.
  lemma {:induction false} OutputTranscribes(log: seq<Call>)
    requires Receiver.Orderly(log)
    ensures Transcribes(log, Receiver.HearAll(log).out)
    ensures Placed(Receiver.HearAll(log).cells, Places(log, Receiver.HearAll(log).out))
  {
    if log != [] {
      var before, c := log[..|log| - 1], log[|log| - 1];
      OutputTranscribes(before);
      assert log == before + [c];
      TranscriptGoesOn(before, c);
    }
  }

  // So it is after any run.
  lemma RunIsTranscribed(s: State)
    requires Reachable(s)
    ensures Transcribes(s.log, Receiver.HearAll(s.log).out)
  {
    ReachableFollowed(s);
    OutputTranscribes(s.log);
  }

  // ---------- Counters ----------

  datatype Kind = KMalloc | KMemalign | KRealloc | KFree | KFreeSized | KBarrier | KOther

  function KindOf(c: Call): Kind {
    match c
    case Do(Malloc(_, _)) => KMalloc
    case Do(Memalign(_, _, _)) => KMemalign
    case Do(Realloc(_, _, _)) => KRealloc
    case Do(Free(_)) => KFree
    case Do(FreeSized(_)) => KFreeSized
    case Barrier => KBarrier
    case _ => KOther
  }

  // How many calls of a log are of a kind.
  function Many(log: seq<Call>, kind: Kind): nat {
    if log == [] then 0 else Many(log[..|log| - 1], kind) + if KindOf(log[|log| - 1]) == kind then 1 else 0
  }

  ghost predicate Counted(c: Receiver.Counters, log: seq<Call>) {
    && c.mallocs == Many(log, KMalloc) && c.memaligns == Many(log, KMemalign) && c.reallocs == Many(log, KRealloc)
    && c.frees == Many(log, KFree) && c.sizedFrees == Many(log, KFreeSized) && c.barriers == Many(log, KBarrier)
  }

  lemma HearCounts(r: Receiver.State, log: seq<Call>, c: Call)
    requires Receiver.Accepts(r, c) && Counted(r.counts, log)
    ensures Counted(Receiver.Hear(r, c).counts, log + [c])
  {
    assert (log + [c])[..|log|] == log;
  }

  // Each counter counts the calls of its own kind.
  lemma {:induction false} CountersCount(log: seq<Call>)
    requires Receiver.Orderly(log)
    ensures Counted(Receiver.HearAll(log).counts, log)
  {
    if log != [] {
      var before, c := log[..|log| - 1], log[|log| - 1];
      CountersCount(before);
      assert Receiver.Accepts(Receiver.HearAll(before), c) by {
        Receiver.HearAllKeeps(log);
      }
      HearCounts(Receiver.HearAll(before), before, c);
      assert log == before + [c];
    }
  }

  // ---------- Rounds ----------

  lemma ManySnoc(log: seq<Call>, c: Call)
    ensures Many(log + [c], KBarrier) == Many(log, KBarrier) + if c.Barrier? then 1 else 0
  {
    assert (log + [c])[..|log|] == log;
  }

  function Rounds(ops: seq<Op>): nat {
    if ops == [] then 0 else (if ops[0].OpReap? then 1 else 0) + Rounds(ops[1..])
  }

  lemma EmitRingsNothing(s: State, t: Tid)
    requires s.Waiting(t)
    ensures Many(Emit(s, t).log, KBarrier) == Many(s.log, KBarrier)
  {
    var n := s.Head(t);
    var log1 := s.log + SwitchCalls(s, t);
    var log2 := log1 + ClockCalls(s, n.ts, n.cpu);
    ManySnoc(s.log, SwitchThread(t));
    ManySnoc(log1, SetTS(n.ts, n.cpu));
    ManySnoc(log2, Do(n.ev));
    assert s.log + [] == s.log && log1 + [] == log1;
  }

  lemma AdvanceRingsNothing(s: State, e: Entry)
    requires s.Waiting(e.tid)
    ensures Many(Advance(s, e).log, KBarrier) == Many(s.log, KBarrier)
  {
    EmitRingsNothing(s, e.tid);
    ManySnoc(Emit(s, e.tid).log, KillCurrentThread);
  }

  lemma StepRingsNothing(s: State, e: Entry)
    requires s.Waiting(e.tid)
    ensures Many(Step(s, e).log, KBarrier) == Many(s.log, KBarrier)
  {
    StepEffect(s, e);
    AdvanceRingsNothing(s, e);
  }

  lemma {:induction false} ReapEachRingsNothing(s: State, todo: seq<Tid>, kept: seq<Tid>)
    ensures Many(ReapEach(s, todo, kept).log, KBarrier) == Many(s.log, KBarrier)
    decreases |todo|
  {
    if todo != [] {
      var t := todo[0];
      if t in s.sleepers {
        ReapEachRingsNothing(s, todo[1..], kept + [t]);
      } else {
        ManySnoc(s.log, SwitchThread(t));
        ManySnoc(s.log + [SwitchThread(t)], KillCurrentThread);
        assert s.log + [SwitchThread(t), KillCurrentThread] == s.log + [SwitchThread(t)] + [KillCurrentThread];
        ReapEachRingsNothing(ReapOne(s, t), todo[1..], kept);
      }
    }
  }

  // The receiver is told of a barrier once for every round, and at no other time.
  lemma {:induction false} OneBarrierPerRound(s: State, ops: seq<Op>, z: State)
    requires Run(s, ops, z)
    ensures Many(z.log, KBarrier) == Many(s.log, KBarrier) + Rounds(ops)
    decreases |ops|
  {
    if ops != [] {
      match ops[0] {
        case OpArrive(_, _) =>
        case OpDie(_) =>
        case OpPick(e) => StepRingsNothing(s, e);
        case OpReap =>
          ReapEachRingsNothing(s, s.toDie, []);
          ManySnoc(ReapEach(s, s.toDie, []).log, Barrier);
      }
      OneBarrierPerRound(Exec(s, ops[0]), ops[1..], z);
    }
  }
}
