/** From the bytes of a trace to the instructions that are replayed. */
module EndToEnd {
  import opened Wrappers
  import opened Words
  import opened Events
  import opened History
  import opened Calls
  import opened Machine
  import opened MachineInvariant
  import opened MachineTheorems
  import opened LinkedLogs
  import opened Varint
  import opened Replay
  import opened Receiver
  import opened Serializers
  import opened SerializeTraces
  import opened ReplayInputs
  import opened ReplayTraces
  import opened ReplayPointers
  import opened Widths

  // The final frees concern no thread, and name only registers that were named before.
  lemma {:induction false} FreesAddLittle(out: seq<Instruction>, cells: Cells, order: seq<Token>, bound: nat)
    requires forall k :: 0 <= k < |order| ==> order[k] in cells && cells[order[k]].reg < bound
    ensures ThreadAfter(out + FreesOf(cells, order)) == ThreadAfter(out)
    ensures CrispTrace(out + FreesOf(cells, order)) <==> CrispTrace(out)
    ensures NamesBelow(out + FreesOf(cells, order), bound) <==> NamesBelow(out, bound)
  {
    if order == [] {
      assert out + FreesOf(cells, order) == out;
    } else {
      var before, i := order[..|order| - 1], FREE(cells[order[|order| - 1]].reg);
      FreesAddLittle(out, cells, before, bound);
      assert out + FreesOf(cells, order) == out + FreesOf(cells, before) + [i];
      TraceSnoc(out + FreesOf(cells, before), i);
      BelowSnoc(out + FreesOf(cells, before), i, bound);
    }
  }

  lemma BelowSnoc(out: seq<Instruction>, i: Instruction, bound: nat)
    ensures NamesBelow(out + [i], bound) <==> NamesBelow(out, bound) && forall r :: r in Names(i) ==> r < bound
  {
    if NamesBelow(out + [i], bound) {
      assert forall k :: 0 <= k < |out| ==> out[k] == (out + [i])[k];
      assert (out + [i])[|out|] == i;
    }
  }

  // The registers of live tokens are below the peak.
  lemma CellsBelowPeak(log: seq<Call>, t: Token)
    requires Orderly(log) && t in HearAll(log).cells
    ensures HearAll(log).cells[t].reg < Peak(log)
  {
    HearAllKeeps(log);
    FullWasNamed(HearAll(log).out, HearAll(log).cells[t].reg);
  }

  // Registers have 56 bits in the output file.
  const MAX_FIELD: nat := 0x100_0000_0000_0000

  // Everything that is written for a run that has made its last round.
  function Written(s: Machine.State, order: seq<Token>): seq<Instruction>
    requires Lists(order, HearAll(s.log).cells)
  {
    HearAll(s.log).out + FreesOf(HearAll(s.log).cells, order)
  }

  lemma NamedInPart(xs: seq<Instruction>, ys: seq<Instruction>, reg: nat)
    requires Named(xs, reg)
    ensures Named(xs + ys, reg)
  {
    var k :| 0 <= k < |xs| && reg in Names(xs[k]);
    assert reg in Names((xs + ys)[k]);
  }

  // The registers it names are exactly those below the peak number of objects alive at once.
  lemma WrittenNames(s: Machine.State, order: seq<Token>, reg: nat)
    requires Reachable(s) && Lists(order, HearAll(s.log).cells)
    ensures Named(Written(s, order), reg) <==> reg < Peak(s.log)
  {
    var r := HearAll(s.log);
    assert Orderly(s.log) by {
      ReachableFollowed(s);
    }
    NamedIffBelowPeak(s.log, reg);
    if Named(r.out, reg) {
      NamedInPart(r.out, FreesOf(r.cells, order), reg);
    }
    assert NamesBelow(Written(s, order), Peak(s.log)) by {
      WrittenNamesBelow(s, order);
    }
  }

  lemma WrittenNamesBelow(s: Machine.State, order: seq<Token>)
    requires Orderly(s.log) && Lists(order, HearAll(s.log).cells)
    ensures NamesBelow(Written(s, order), Peak(s.log))
    ensures CrispTrace(Written(s, order)) <==> CrispTrace(HearAll(s.log).out)
  {
    var r := HearAll(s.log);
    forall k | 0 <= k < |order| ensures r.cells[order[k]].reg < Peak(s.log) {
      CellsBelowPeak(s.log, order[k]);
    }
    assert NamesBelow(r.out, Peak(s.log)) by {
      HearAllKeeps(s.log);
    }
    FreesAddLittle(r.out, r.cells, order, Peak(s.log));
  }

  // It is a tidy trace that leaves no register full; what replay asserts about threads holds unless
  // a round ended badly.
  lemma WrittenIsSafe(ops: seq<Op>, s: Machine.State, order: seq<Token>)
    requires Run(Init(), ops, s) && Lists(order, HearAll(s.log).cells)
    ensures TidyTrace(Written(s, order)) && RegsAfter(Written(s, order)) == map[] && CountAfter(Written(s, order)) == 0
    ensures forall reg: nat :: Named(Written(s, order), reg) <==> reg < Peak(s.log)
    ensures CrispTrace(Written(s, order)) <==> !Redundant(Init(), ops)
  {
    assert Reachable(s);
    assert Orderly(s.log) by {
      ReachableFollowed(s);
    }
    PipelineIsCrisp(ops, s);
    WrittenNamesBelow(s, order);
    DumpLeavesNothing(s.log, order);
    forall reg: nat ensures Named(Written(s, order), reg) <==> reg < Peak(s.log) {
      WrittenNames(s, order, reg);
    }
  }

  lemma NarrowFits(i: Instruction)
    requires WordsFit(i) && forall r :: r in Names(i) ==> r < MAX_FIELD
    ensures Fits(i)
  {
    match i
    case REALLOC(reg, newReg, _) => assert reg in Names(i) && newReg in Names(i);
    case MALLOC(reg, _) => assert reg in Names(i);
    case MEMALIGN(reg, _, _) => assert reg in Names(i);
    case FREE(reg) => assert reg in Names(i);
    case FREE_SIZED(reg, _) => assert reg in Names(i);
    case _ =>
  }

  // What is written about a trace fits into the records of the output file.
  lemma WrittenFits(bytes: seq<byte>, clocks: Clocks, ops: seq<Op>, s: Machine.State, order: seq<Token>)
    requires TraceFrom(bytes, NOTHING, clocks).Some? && s.prog == TraceFrom(bytes, NOTHING, clocks).value.prog
    requires Run(Init(), ops, s) && Lists(order, HearAll(s.log).cells) && Peak(s.log) <= MAX_FIELD
    ensures forall k :: 0 <= k < |Written(s, order)| ==> Fits(Written(s, order)[k])
  {
    TraceFits(bytes, NOTHING, clocks);
    InitInv();
    RunFits(Init(), ops, s);
    HearAllFits(s.log);
    FreesFit(HearAll(s.log).cells, order);
    assert Reachable(s);
    assert Orderly(s.log) by {
      ReachableFollowed(s);
    }
    WrittenNamesBelow(s, order);
    var out := Written(s, order);
    forall k | 0 <= k < |out| ensures Fits(out[k]) {
      assert WordsFit(out[k]);
      NarrowFits(out[k]);
    }
  }

  // A trace that plays stays within the register file.
  lemma {:induction false} PlaysWithin(out: seq<Instruction>, reg: nat)
    requires Plays(out) && Named(out, reg)
    ensures reg < MAX_REGISTERS
  {
    var before, i := out[..|out| - 1], out[|out| - 1];
    assert out == before + [i];
    NamedSnoc(before, i, reg);
    if Named(before, reg) {
      PlaysWithin(before, reg);
    }
  }

  // A tidy trace plays if and only if it stays within the register file and its thread switches pass.
  lemma TidyPlaysWithin(out: seq<Instruction>, peak: nat)
    requires TidyTrace(out) && forall reg: nat :: Named(out, reg) <==> reg < peak
    ensures Plays(out) <==> peak <= MAX_REGISTERS && CrispTrace(out)
  {
    if peak <= MAX_REGISTERS {
      forall k, r | 0 <= k < |out| && r in Names(out[k]) ensures r < MAX_REGISTERS {
        assert Named(out, r);
      }
      TidyPlays(out);
    } else if Plays(out) {
      assert Named(out, peak - 1);
      PlaysWithin(out, peak - 1);
    }
  }

  // The output file is read back by replay as what was written, even if its last record is torn.  All
  // of it plays if and only if at most 2^30 objects were alive at once and no round ended by killing
  // first the thread the receiver was last told of.
  lemma WrittenIsReplayed(bytes: seq<byte>, clocks: Clocks, ops: seq<Op>, s: Machine.State, order: seq<Token>, torn: seq<byte>)
    requires TraceFrom(bytes, NOTHING, clocks).Some? && s.prog == TraceFrom(bytes, NOTHING, clocks).value.prog
    requires Run(Init(), ops, s) && Lists(order, HearAll(s.log).cells) && Peak(s.log) <= MAX_FIELD
    requires |torn| < RECORD_SIZE
    ensures var out := Written(s, order);
            && (forall i :: i in out ==> Fits(i)) && Instructions(Dumped(out) + torn) == Some(out)
            && (Plays(out) <==> Peak(s.log) <= 0x4000_0000 && !Redundant(Init(), ops))
  {
    var out := Written(s, order);
    WrittenFits(bytes, clocks, ops, s, order);
    DumpRoundTrip(out, torn);
    WrittenIsSafe(ops, s, order);
    TidyPlaysWithin(out, Peak(s.log));
  }

  // The file holds what was dumped, and perhaps part of one record more.
  ghost predicate HoldsOutput(file: seq<byte>, out: seq<Instruction>, torn: seq<byte>) {
    && |torn| < RECORD_SIZE && (forall i :: i in out ==> Fits(i))
    && file == Dumped(out) + torn
  }

  // Replaying the output file of a run, if neither reading nor allocating fails: it is carried out to
  // its end, every instruction once and in order, if and only if there is an instruction at all, at
  // most 2^30 objects were alive at once, and no round ended with a redundant switch.
  method ReplayOutput(input: Input, player: Player, ptrs: nat -> nat, ghost bytes: seq<byte>, ghost clocks: Clocks,
                      ghost ops: seq<Op>, ghost s: Machine.State, ghost order: seq<Token>, ghost torn: seq<byte>)
    returns (outcome: Outcome)
    requires TraceFrom(bytes, NOTHING, clocks).Some? && s.prog == TraceFrom(bytes, NOTHING, clocks).value.prog
    requires Run(Init(), ops, s) && Lists(order, HearAll(s.log).cells) && Peak(s.log) <= MAX_FIELD
    requires input.Valid() && Played(player, [], ptrs) && Separate(input, player) && Lucky(input.fd.pattern, ptrs)
    requires HoldsOutput(input.Rest(), Written(s, order), torn)
    modifies input, input.fd, input.buffer, player, player.registers
    ensures outcome.Done? <==>
            Written(s, order) != [] && Peak(s.log) <= 0x4000_0000 && !Redundant(Init(), ops)
    ensures outcome.Done? ==> Played(player, Written(s, order), ptrs) && player.allocatedCount == 0
    ensures outcome.Done? ==> forall r :: 0 <= r < 0x4000_0000 ==> player.registers[r] == 0
    ensures outcome.Done? ==> Returned(Written(s, order), ptrs) == GivenBack(player.requests)
  {
    hide Instructions, Plays, Written, Run, Redundant, Fits, Returned, GivenBack, TraceFrom, Peak, FromBytes;
    ghost var out := Written(s, order);
    WrittenIsReplayed(bytes, clocks, ops, s, order, torn);
    AllIsGivenBack(ops, s, order, ptrs);
    ghost var done;
    outcome, done := ReplayFile(input, player, ptrs);
    if outcome.Done? {
      PlayedEmpty(player, out, ptrs);
    }
  }

  lemma PlayedEmpty(player: Player, out: seq<Instruction>, ptrs: nat -> nat)
    requires Played(player, out, ptrs) && RegsAfter(out) == map[] && CountAfter(out) == 0
    ensures player.registers.Length == MAX_REGISTERS && forall r :: 0 <= r < MAX_REGISTERS ==> player.registers[r] == 0
    ensures player.allocatedCount == 0 && player.requests == RequestsAfter(out, ptrs)
  {
    hide Plays, RegsAfter, ThreadAfter, CountAfter, Holds;
  }

  // Every pointer that the allocator returns while the output is replayed is given back, once.
  lemma AllIsGivenBack(ops: seq<Op>, s: Machine.State, order: seq<Token>, ptrs: nat -> nat)
    requires Run(Init(), ops, s) && Lists(order, HearAll(s.log).cells)
    ensures var out := Written(s, order);
            && Returned(out, ptrs) == GivenBack(RequestsAfter(out, ptrs))
            && RegsAfter(out) == map[] && CountAfter(out) == 0
  {
    hide Run, Redundant, Written;
    WrittenIsSafe(ops, s, order);
    var out := Written(s, order);
    forall k, r | 0 <= k < |out| && r in Names(out[k]) ensures r < Peak(s.log) {
      assert Named(out, r);
    }
    AllGivenBack(out, ptrs, Peak(s.log));
  }

  // ---------- When nothing is written ----------

  ghost predicate Quiet(log: seq<Call>) {
    forall k :: 0 <= k < |log| ==> log[k].Barrier?
  }

  lemma {:induction false} QuietTells(log: seq<Call>)
    ensures Quiet(log) ==> Heard(log) == [] && Kills(log) == []
  {
    if log != [] {
      QuietTells(log[..|log| - 1]);
    }
  }

  lemma {:induction false} QuietWrites(log: seq<Call>)
    requires Orderly(log)
    ensures HearAll(log).out == [] <==> Quiet(log)
  {
    if log != [] {
      var before, c := log[..|log| - 1], log[|log| - 1];
      assert log == before + [c];
      QuietWrites(before);
      HearAllSnoc(before, c);
      assert Quiet(log) <==> Quiet(before) && c.Barrier?;
    }
  }

  // While nobody has been killed there is nobody signalled, so what the end of a round does to the
  // log is to kill.
  lemma {:induction false} ReapEachQuiet(s: Machine.State, todo: seq<Tid>, kept: seq<Tid>)
    requires forall t :: t !in s.signalled
    ensures |Kills(ReapEach(s, todo, kept).log)| >= |Kills(s.log)|
    ensures |Kills(ReapEach(s, todo, kept).log)| == |Kills(s.log)| ==> ReapEach(s, todo, kept).log == s.log
    decreases |todo|
  {
    if todo != [] {
      if todo[0] in s.sleepers {
        ReapEachQuiet(s, todo[1..], kept + [todo[0]]);
      } else {
        ReapOneLog(s, todo[0]);
        ReapEachQuiet(ReapOne(s, todo[0]), todo[1..], kept);
      }
    }
  }

  // Nothing has been delivered, and nobody has been killed.
  ghost predicate Idle(s: Machine.State) {
    s.sched == [] && Kills(s.log) == []
  }

  lemma NobodySignalled(s: Machine.State)
    requires Machine.Inv(s) && s.heap == multiset{} && Kills(Reap(s).log) == []
    ensures (forall t :: t !in s.signalled) && Reap(s).sched == s.sched
  {
    var z := Reap(s);
    assert KillsOK(z) && z.signalled == s.signalled && z.sched == s.sched by {
      ReapKeeps(s);
    }
    assert forall t :: t in z.signalled ==> t in Kills(z.log);
  }

  lemma ReapQuiet(s: Machine.State)
    requires (forall t :: t !in s.signalled) && Kills(Reap(s).log) == []
    ensures Reap(s).log == s.log + [Barrier] && Kills(s.log) == []
  {
    LogSnoc(ReapEach(s, s.toDie, []).log, Barrier);
    ReapEachQuiet(s, s.toDie, []);
  }

  lemma ReapIdle(s: Machine.State)
    requires Machine.Inv(s) && s.heap == multiset{} && Idle(Reap(s))
    ensures Idle(s) && (Quiet(s.log) ==> Quiet(Reap(s).log))
  {
    hide Machine.Inv, Reap;
    NobodySignalled(s);
    ReapQuiet(s);
  }

  lemma ExecIdle(s: Machine.State, op: Op)
    requires Machine.Inv(s) && Enabled(s, op) && Idle(Exec(s, op))
    ensures Idle(s) && (Quiet(s.log) ==> Quiet(Exec(s, op).log))
  {
    match op
    case OpArrive(t, evs) =>
    case OpDie(t) =>
    case OpPick(e) => StepEffect(s, e);
    case OpReap => ReapIdle(s);
  }

  lemma {:induction false} RunIdle(s: Machine.State, ops: seq<Op>, z: Machine.State)
    requires Machine.Inv(s) && Run(s, ops, z) && Idle(z)
    ensures Idle(s) && (Quiet(s.log) ==> Quiet(z.log))
    decreases |ops|
  {
    if ops != [] {
      ExecKeeps(s, ops[0]);
      RunIdle(Exec(s, ops[0]), ops[1..], z);
      ExecIdle(s, ops[0]);
    }
  }

  lemma {:induction false} ToldSize(p: Program, h: seq<Tid>)
    requires Legal(p, h)
    ensures |Told(p, h)| == |h|
  {
    if h != [] {
      ToldSize(p, h[..|h| - 1]);
    }
  }

  // The output is empty, so that replay refuses it, exactly when no event was delivered and no thread
  // was killed.
  lemma WrittenIsEmpty(ops: seq<Op>, s: Machine.State, order: seq<Token>)
    requires Run(Init(), ops, s) && Lists(order, HearAll(s.log).cells)
    ensures Written(s, order) == [] <==> Idle(s)
  {
    InitInv();
    assert Reachable(s);
    ReachableInv(s);
    ReachableFollowed(s);
    QuietWrites(s.log);
    QuietTells(s.log);
    ToldSize(s.prog, s.sched);
    if Idle(s) {
      RunIdle(Init(), ops, s);
    }
    if HearAll(s.log).out == [] {
      NoCells(s.log, order);
    }
  }

  lemma ListsSome(order: seq<Token>, cells: Cells)
    requires Lists(order, cells) && order != []
    ensures cells != map[]
  {
    assert order[0] in cells;
  }

  lemma NoCells(log: seq<Call>, order: seq<Token>)
    requires Orderly(log) && HearAll(log).out == [] && Lists(order, HearAll(log).cells)
    ensures order == []
  {
    assert |HearAll(log).cells| == |RegsAfter(HearAll(log).out)| by {
      HearAllKeeps(log);
    }
    if order != [] {
      ListsSome(order, HearAll(log).cells);
    }
  }

  // The program: serializes a file, then frees what is left.
  method Postprocess(data: seq<byte>, clocks: Clocks, junk: seq<byte>)
    returns (out: seq<Instruction>, panicked: bool, ghost s: Machine.State, ghost ops: seq<Op>, ghost order: seq<Token>)
    requires Acceptable(data, clocks) && |junk| == MAX_SIZE
    ensures panicked <==> !HasMagic(data)
    ensures !panicked ==>
              var t := TraceFrom(data[|MAGIC|..], NOTHING, clocks).value;
              && Run(Init(), ops, s) && Inputs(ops) == t.inputs && s.prog == t.prog && s.heap == multiset{}
              && Lists(order, HearAll(s.log).cells) && out == Written(s, order)
  {
    var z;
    z, panicked, s, ops := SerializeMallocEvents(data, clocks, junk);
    out, order := [], [];
    if !panicked {
      assert z.receiver.View() == HearAll(s.log);
      order := z.receiver.DumpAllDeallocations();
      out := z.receiver.out;
    }
  }
}
