/** Instructions of a processed trace, and the register machine that replays them. */
module Replay {
  import opened Wrappers
  import opened Words
  import opened Events

  datatype Instruction =
    | MALLOC(reg: nat, size: int)
    | FREE(reg: nat)
    | FREE_SIZED(reg: nat, size: int)
    | MEMALIGN(reg: nat, size: int, align: int)
    | REALLOC(reg: nat, newReg: nat, newSize: int)
    | SWITCH_THREAD(tid: Tid)
    | KILL_THREAD
    | SET_TS_CPU(ts: int, cpu: int)

  const MAX_REGISTERS: nat := 0x4000_0000

  // ---------- What an instruction does ----------

  // The full registers, each with the size of the object it holds.
  type Registers = map<nat, int>

  function PlayRegs(m: Registers, i: Instruction): Registers {
    match i
    case MALLOC(reg, size) => m[reg := size]
    case FREE(reg) => m - {reg}
    case FREE_SIZED(reg, _) => m - {reg}
    case MEMALIGN(reg, size, _) => m[reg := size]
    case REALLOC(reg, newReg, newSize) => (m - {reg})[newReg := newSize]
    case _ => m
  }

  function PlayThread(current: Tid, i: Instruction): Tid {
    match i
    case SWITCH_THREAD(tid) => tid
    case KILL_THREAD => INVALID_THREAD
    case _ => current
  }

  function CountChange(i: Instruction): int {
    match i
    case MALLOC(_, _) => 1
    case MEMALIGN(_, _, _) => 1
    case FREE(_) => -1
    case FREE_SIZED(_, _) => -1
    case _ => 0
  }

  // The registers an instruction names.
  function Names(i: Instruction): set<nat> {
    match i
    case MALLOC(reg, _) => {reg}
    case FREE(reg) => {reg}
    case FREE_SIZED(reg, _) => {reg}
    case MEMALIGN(reg, _, _) => {reg}
    case REALLOC(reg, newReg, _) => {reg, newReg}
    case _ => {}
  }

  // What replay asserts about registers.
  predicate RegsAssert(m: Registers, i: Instruction) {
    match i
    case MALLOC(reg, _) => reg !in m
    case FREE(reg) => reg in m
    case FREE_SIZED(reg, _) => reg in m
    case REALLOC(reg, _, _) => reg in m
    case _ => true
  }

  // What a good trace does on top of that: no object is lost by overwriting its register, and a
  // sized free tells the size its register was last defined with.
  predicate Tidy(m: Registers, i: Instruction) {
    RegsAssert(m, i) &&
    match i
    case MEMALIGN(reg, _, _) => reg !in m
    case REALLOC(_, newReg, _) => newReg !in m
    case FREE_SIZED(reg, size) => m[reg] == size
    case _ => true
  }

  // What replay asserts about threads.
  predicate ThreadAssert(current: Tid, i: Instruction) {
    match i
    case SWITCH_THREAD(tid) => current != tid && tid != INVALID_THREAD
    case KILL_THREAD => current != INVALID_THREAD
    case _ => true
  }

  // ---------- Whole traces ----------

  function RegsAfter(out: seq<Instruction>): Registers {
    if out == [] then map[] else PlayRegs(RegsAfter(out[..|out| - 1]), out[|out| - 1])
  }

  function ThreadAfter(out: seq<Instruction>): Tid {
    if out == [] then INVALID_THREAD else PlayThread(ThreadAfter(out[..|out| - 1]), out[|out| - 1])
  }

  function CountAfter(out: seq<Instruction>): int {
    if out == [] then 0 else CountAfter(out[..|out| - 1]) + CountChange(out[|out| - 1])
  }

  predicate TidyTrace(out: seq<Instruction>) {
    out == [] || (TidyTrace(out[..|out| - 1]) && Tidy(RegsAfter(out[..|out| - 1]), out[|out| - 1]))
  }

  predicate CrispTrace(out: seq<Instruction>) {
    out == [] || (CrispTrace(out[..|out| - 1]) && ThreadAssert(ThreadAfter(out[..|out| - 1]), out[|out| - 1]))
  }

  lemma TraceSnoc(out: seq<Instruction>, i: Instruction)
    ensures RegsAfter(out + [i]) == PlayRegs(RegsAfter(out), i)
    ensures ThreadAfter(out + [i]) == PlayThread(ThreadAfter(out), i)
    ensures CountAfter(out + [i]) == CountAfter(out) + CountChange(i)
    ensures TidyTrace(out + [i]) <==> TidyTrace(out) && Tidy(RegsAfter(out), i)
    ensures CrispTrace(out + [i]) <==> CrispTrace(out) && ThreadAssert(ThreadAfter(out), i)
  {
    assert (out + [i])[..|out|] == out;
  }

  // Wherever memory is asked for, the register it goes to is empty, or emptied by the instruction;
  // whatever gives memory back names a full register; and a sized free tells the size of the object.
  lemma {:induction false} TidyMeans(out: seq<Instruction>, k: nat)
    requires TidyTrace(out) && k < |out|
    ensures var full := RegsAfter(out[..k]);
            match out[k]
            case MALLOC(reg, _) => reg !in full
            case MEMALIGN(reg, _, _) => reg !in full
            case REALLOC(reg, newReg, _) => reg in full && newReg !in full
            case FREE(reg) => reg in full
            case FREE_SIZED(reg, size) => reg in full && full[reg] == size
            case _ => true
  {
    if k < |out| - 1 {
      assert out[..|out| - 1][..k] == out[..k];
      TidyMeans(out[..|out| - 1], k);
    }
  }

  // A register is full with the size that the last instruction to fill it asked for.
  lemma {:induction false} SizeStays(out: seq<Instruction>, j: nat, reg: nat)
    requires j < |out| && Filled(out[j]) == Some(reg)
    requires forall k :: j < k < |out| ==> Filled(out[k]) != Some(reg) && Emptied(out[k]) != Some(reg)
    ensures reg in RegsAfter(out) &&
            RegsAfter(out)[reg] ==
            match out[j]
            case MALLOC(_, size) => size
            case MEMALIGN(_, size, _) => size
            case REALLOC(_, _, newSize) => newSize
            case _ => 0
  {
    if j < |out| - 1 {
      SizeStays(out[..|out| - 1], j, reg);
    }
  }

  // A register that nothing has filled since it was last emptied is not full.
  lemma {:induction false} StaysEmpty(out: seq<Instruction>, j: nat, reg: nat)
    requires j <= |out| && forall k :: j <= k < |out| ==> Filled(out[k]) != Some(reg)
    requires j == 0 || (Filled(out[j - 1]) != Some(reg) && Emptied(out[j - 1]) == Some(reg))
    ensures reg !in RegsAfter(out)
  {
    if j < |out| {
      StaysEmpty(out[..|out| - 1], j, reg);
    }
  }

  // In a tidy trace the counter replay keeps is the number of full registers.
  lemma {:induction false} CountIsFull(out: seq<Instruction>)
    requires TidyTrace(out)
    ensures CountAfter(out) == |RegsAfter(out)|
  {
    if out != [] {
      var before, i := out[..|out| - 1], out[|out| - 1];
      CountIsFull(before);
      CountOfStep(RegsAfter(before), i);
    }
  }

  lemma CountOfStep(m: Registers, i: Instruction)
    requires Tidy(m, i)
    ensures |PlayRegs(m, i)| == |m| + CountChange(i)
  {
    match i
    case MALLOC(reg, size) => SizeAdd(m, reg, size);
    case MEMALIGN(reg, size, _) => SizeAdd(m, reg, size);
    case FREE(reg) => SizeDrop(m, reg);
    case FREE_SIZED(reg, _) => SizeDrop(m, reg);
    case REALLOC(reg, newReg, newSize) =>
      SizeDrop(m, reg);
      SizeAdd(m - {reg}, newReg, newSize);
    case _ =>
  }

  // ---------- Pointers ----------

  // What replay asks of the allocator.
  datatype Request =
    | AskMalloc(size: int)
    | AskMemalign(align: int, size: int)
    | AskRealloc(ptr: nat, size: int)
    | GiveBack(ptr: nat)

  // The register that comes to hold what the allocator returns.
  function Filled(i: Instruction): Option<nat> {
    match i
    case MALLOC(reg, _) => Some(reg)
    case MEMALIGN(reg, _, _) => Some(reg)
    case REALLOC(_, newReg, _) => Some(newReg)
    case _ => None
  }

  // The register whose pointer goes back to the allocator.
  function Emptied(i: Instruction): Option<nat> {
    match i
    case FREE(reg) => Some(reg)
    case FREE_SIZED(reg, _) => Some(reg)
    case REALLOC(reg, _, _) => Some(reg)
    case _ => None
  }

  // The pointer in a register after the instructions out, when the allocator returns ptrs(k) to
  // instruction k.
  function PointerIn(out: seq<Instruction>, ptrs: nat -> nat, reg: nat): nat {
    if out == [] then 0
    else if Filled(out[|out| - 1]) == Some(reg) then ptrs(|out| - 1)
    else if Emptied(out[|out| - 1]) == Some(reg) then 0
    else PointerIn(out[..|out| - 1], ptrs, reg)
  }

  // What the instruction asks for, when held is in the register it empties.
  function RequestsOf(i: Instruction, held: nat): seq<Request> {
    match i
    case MALLOC(_, size) => [AskMalloc(size)]
    case MEMALIGN(_, size, align) => [AskMemalign(align, size)]
    case REALLOC(_, _, newSize) => [AskRealloc(held, newSize)]
    case FREE(_) => [GiveBack(held)]
    case FREE_SIZED(_, _) => [GiveBack(held)]
    case _ => []
  }

  function HeldFor(out: seq<Instruction>, ptrs: nat -> nat, i: Instruction): nat {
    match Emptied(i)
    case Some(reg) => PointerIn(out, ptrs, reg)
    case None => 0
  }

  function RequestsAfter(out: seq<Instruction>, ptrs: nat -> nat): seq<Request> {
    if out == [] then []
    else
      var before, i := out[..|out| - 1], out[|out| - 1];
      RequestsAfter(before, ptrs) + RequestsOf(i, HeldFor(before, ptrs, i))
  }

  lemma PointersSnoc(out: seq<Instruction>, ptrs: nat -> nat, i: Instruction)
    ensures forall reg: nat :: PointerIn(out + [i], ptrs, reg) ==
                               if Filled(i) == Some(reg) then ptrs(|out|)
                               else if Emptied(i) == Some(reg) then 0
                               else PointerIn(out, ptrs, reg)
    ensures RequestsAfter(out + [i], ptrs) == RequestsAfter(out, ptrs) + RequestsOf(i, HeldFor(out, ptrs, i))
  {
    assert (out + [i])[..|out|] == out;
  }

  // ---------- The program ----------

  datatype Outcome = Done | Aborted | AssertionFailed | Faulted

  class Player {
    const registers: array<nat> // 0 is the null pointer
    var allocatedCount: u64
    var currentThreadId: Tid
    var requests: seq<Request>  // what the allocator has been asked
    ghost var sizes: Registers  // the size each full register was defined with

    ghost predicate Valid()
      reads this, registers
    {
      && registers.Length == MAX_REGISTERS
      && forall r: nat :: r in sizes <==> r < MAX_REGISTERS && registers[r] != 0
    }

    constructor ()
      ensures Valid() && sizes == map[] && allocatedCount == 0 && currentThreadId == INVALID_THREAD
      ensures fresh(registers) && requests == [] && forall r :: 0 <= r < MAX_REGISTERS ==> registers[r] == 0
    {
      requests := [];
      registers := new nat[MAX_REGISTERS](i => 0);
      allocatedCount := 0;
      currentThreadId := INVALID_THREAD;
      sizes := map[];
    }

    // Both fail where the source asserts.
    method HandleSwitchThread(tid: Tid) returns (ok: bool)
      modifies `currentThreadId
      ensures ok <==> tid != old(currentThreadId) && tid != 0xFFFF_FFFF_FFFF_FFFF
      ensures currentThreadId == if ok then tid else old(currentThreadId)
    {
      ok := currentThreadId != tid && tid != INVALID_THREAD;
      if ok {
        currentThreadId := tid;
      }
    }

    method HandleKillThread() returns (ok: bool)
      modifies `currentThreadId
      ensures ok <==> old(currentThreadId) != 0xFFFF_FFFF_FFFF_FFFF
      ensures currentThreadId == if ok then 0xFFFF_FFFF_FFFF_FFFF else old(currentThreadId)
    {
      ok := currentThreadId != INVALID_THREAD;
      if ok {
        currentThreadId := INVALID_THREAD;
      }
    }

    // Replays one instruction; ptr is what the allocator returns if it is asked for memory.  The
    // instruction is carried out exactly when its registers exist, the assertions hold and the
    // allocator does not fail.  Then the pointer is in the register it is for, the register that gave
    // its pointer back is null, and no other register has changed.
    method ReplayInstruction(i: Instruction, ptr: nat) returns (outcome: Outcome)
      requires Valid()
      modifies this, registers
      ensures Valid()
      ensures outcome.Done? <==>
              (forall r :: r in Names(i) ==> r < MAX_REGISTERS) &&
              match i
              case MALLOC(reg, _) => old(registers[..])[reg] == 0 && ptr != 0
              case MEMALIGN(_, _, _) => ptr != 0
              case FREE(reg) => old(registers[..])[reg] != 0
              case FREE_SIZED(reg, _) => old(registers[..])[reg] != 0
              case REALLOC(reg, _, _) => old(registers[..])[reg] != 0 && ptr != 0
              case SWITCH_THREAD(tid) => tid != old(currentThreadId) && tid != 0xFFFF_FFFF_FFFF_FFFF
              case KILL_THREAD => old(currentThreadId) != 0xFFFF_FFFF_FFFF_FFFF
              case SET_TS_CPU(_, _) => true
      ensures outcome.Done? ==>
              (forall r :: r in Names(i) ==> r < MAX_REGISTERS) &&
              registers[..] ==
              match i
              case MALLOC(reg, _) => old(registers[..])[reg := ptr]
              case MEMALIGN(reg, _, _) => old(registers[..])[reg := ptr]
              case FREE(reg) => old(registers[..])[reg := 0]
              case FREE_SIZED(reg, _) => old(registers[..])[reg := 0]
              case REALLOC(reg, newReg, _) => old(registers[..])[reg := 0][newReg := ptr]
              case _ => old(registers[..])
      ensures outcome.Done? ==>
              (forall r :: r in Names(i) ==> r < MAX_REGISTERS) &&
              requests == old(requests) +
              match i
              case MALLOC(_, size) => [AskMalloc(size)]
              case MEMALIGN(_, size, align) => [AskMemalign(align, size)]
              case FREE(reg) => [GiveBack(old(registers[..])[reg])]
              case FREE_SIZED(reg, _) => [GiveBack(old(registers[..])[reg])]
              case REALLOC(reg, _, newSize) => [AskRealloc(old(registers[..])[reg], newSize)]
              case _ => []
      ensures outcome.Done? ==>
              && sizes == PlayRegs(old(sizes), i)
              && currentThreadId == PlayThread(old(currentThreadId), i)
              && allocatedCount == Wrap(old(allocatedCount) + CountChange(i))
      ensures !outcome.Done? ==>
              && sizes == old(sizes) && currentThreadId == old(currentThreadId)
              && registers[..] == old(registers[..])
              && (!i.MEMALIGN? ==> allocatedCount == old(allocatedCount))
              && (requests == old(requests) || (Filled(i).Some? && exists r :: requests == old(requests) + [r]))
    {
      hide Wrap;
      WrapWord(allocatedCount);
      if exists r :: r in Names(i) && r >= MAX_REGISTERS {
        return Faulted;
      }
      match i {
        case MALLOC(reg, size) =>
          requests := requests + [AskMalloc(size)];
          if ptr == 0 {
            return Aborted;
          }
          if registers[reg] != 0 {
            return AssertionFailed;
          }
          registers[reg] := ptr;
          allocatedCount := Wrap(allocatedCount + 1);
          sizes := sizes[reg := size];
        case FREE(reg) =>
          if registers[reg] == 0 {
            return AssertionFailed;
          }
          requests := requests + [GiveBack(registers[reg])];
          registers[reg] := 0;
          allocatedCount := Wrap(allocatedCount - 1);
          sizes := sizes - {reg};
        case MEMALIGN(reg, size, align) =>
          allocatedCount := Wrap(allocatedCount + 1);
          requests := requests + [AskMemalign(align, size)];
          if ptr == 0 {
            return Aborted;
          }
          registers[reg] := ptr;
          sizes := sizes[reg := size];
        case REALLOC(oldReg, newReg, newSize) =>
          if registers[oldReg] == 0 {
            return AssertionFailed;
          }
          requests := requests + [AskRealloc(registers[oldReg], newSize)];
          if ptr == 0 {
            return Aborted;
          }
          registers[oldReg] := 0;
          registers[newReg] := ptr;
          sizes := (sizes - {oldReg})[newReg := newSize];
        case FREE_SIZED(reg, size) =>
          if registers[reg] == 0 {
            return AssertionFailed;
          }
          allocatedCount := Wrap(allocatedCount - 1);
          requests := requests + [GiveBack(registers[reg])];
          registers[reg] := 0;
          sizes := sizes - {reg};
        case KILL_THREAD =>
          var ok := HandleKillThread();
          if !ok {
            return AssertionFailed;
          }
        case SWITCH_THREAD(tid) =>
          var ok := HandleSwitchThread(tid);
          if !ok {
            return AssertionFailed;
          }
        case SET_TS_CPU(_, _) =>
      }
      outcome := Done;
    }
  }
}
