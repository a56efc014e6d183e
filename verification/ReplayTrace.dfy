/** Replaying a whole file of instructions. */
module ReplayTraces {
  import opened Wrappers
  import opened Words
  import opened Events
  import opened Replay
  import opened ReplayInputs

  const RECORD_SIZE: nat := 24

  // ---------- How an instruction is laid out ----------

  function TypeOf(i: Instruction): (kind: byte) {
    match i
    case MALLOC(_, _) => 0
    case FREE(_) => 1
    case FREE_SIZED(_, _) => 2
    case MEMALIGN(_, _, _) => 3
    case REALLOC(_, _, _) => 4
    case SWITCH_THREAD(_) => 5
    case KILL_THREAD => 6
    case SET_TS_CPU(_, _) => 7
  }

  // The register and the two words behind it; what an instruction does not use is zero.
  function FieldsOf(i: Instruction): (int, int, int) {
    match i
    case MALLOC(reg, size) => (reg, size, 0)
    case FREE(reg) => (reg, 0, 0)
    case FREE_SIZED(reg, size) => (reg, size, 0)
    case MEMALIGN(reg, size, align) => (reg, size, align)
    case REALLOC(reg, newReg, newSize) => (reg, newReg, newSize)
    case SWITCH_THREAD(tid) => (0, tid, 0)
    case KILL_THREAD => (0, 0, 0)
    case SET_TS_CPU(ts, cpu) => (0, ts, cpu)
  }

  function InstructionOf(kind: nat, reg: nat, a: nat, b: nat): Option<Instruction> {
    match kind
    case 0 => Some(MALLOC(reg, a))
    case 1 => Some(FREE(reg))
    case 2 => Some(FREE_SIZED(reg, a))
    case 3 => Some(MEMALIGN(reg, a, b))
    case 4 => Some(REALLOC(reg, a, b))
    case 5 => Some(SWITCH_THREAD(a))
    case 6 => Some(KILL_THREAD)
    case 7 => Some(SET_TS_CPU(a, b))
    case _ => None
  }

  // The register has 56 bits, the words have 64.
  predicate Fits(i: Instruction) {
    var (reg, a, b) := FieldsOf(i);
    reg < 0x100_0000_0000_0000 && 0 <= a < TWO64 && 0 <= b < TWO64
  }

  function ToBytes(i: Instruction): (s: seq<byte>)
    requires Fits(i)
    ensures |s| == RECORD_SIZE
  {
    var (reg, a, b) := FieldsOf(i);
    Bytes(TypeOf(i) + 256 * reg, 8) + Bytes(a, 8) + Bytes(b, 8)
  }

  function FromBytes(s: seq<byte>): Option<Instruction>
    requires |s| == RECORD_SIZE
  {
    var word := Number(s[..8]);
    InstructionOf(word % 256, word / 256, Number(s[8..16]), Number(s[16..24]))
  }

  lemma EightBytes(v: nat)
    requires v < TWO64
    ensures Number(Bytes(v, 8)) == v
  {
    assert Pow256(8) == TWO64 by {
      assert Pow256(4) == 0x1_0000_0000;
      assert Pow256(6) == 0x1_0000_0000_0000;
    }
    NumberOfBytes(v, 8);
  }

  lemma ThreeWordsApart(x: seq<byte>, y: seq<byte>, z: seq<byte>)
    requires |x| == |y| == |z| == 8
    ensures var s := x + y + z; |s| == RECORD_SIZE && s[..8] == x && s[8..16] == y && s[16..24] == z
  {
  }

  lemma FieldsTell(i: Instruction)
    requires Fits(i)
    ensures var (reg, a, b) := FieldsOf(i); InstructionOf(TypeOf(i), reg, a, b) == Some(i)
  {
  }

  lemma WordsBack(x: seq<byte>, y: seq<byte>, z: seq<byte>)
    requires |x| == |y| == |z| == 8
    ensures |x + y + z| == RECORD_SIZE
    ensures FromBytes(x + y + z) == InstructionOf(Number(x) % 256, Number(x) / 256, Number(y), Number(z))
  {
    hide Number, InstructionOf;
    ThreeWordsApart(x, y, z);
  }

  lemma InstructionRoundTrip(i: Instruction)
    requires Fits(i)
    ensures FromBytes(ToBytes(i)) == Some(i)
  {
    hide Number, Bytes, FromBytes, InstructionOf;
    var (reg, a, b) := FieldsOf(i);
    var kind := TypeOf(i);
    var word := kind + 256 * reg;
    EightBytes(word);
    EightBytes(a);
    EightBytes(b);
    WordsBack(Bytes(word, 8), Bytes(a, 8), Bytes(b, 8));
    SplitNumber(word, kind, reg);
    FieldsTell(i);
  }

  // A record in bytes: its type, seven bytes of register, and two words of eight bytes, low bytes first.
  ghost predicate LaidOut(s: seq<byte>, kind: nat, reg: nat, a: int, b: int) {
    |s| == 24 && s[0] == kind && Number(s[1..8]) == reg && Number(s[8..16]) == a && Number(s[16..24]) == b
  }

  // What is dumped for each instruction; what it does not use is zero.
  lemma InstructionLayout(i: Instruction)
    requires Fits(i)
    ensures match i
            case MALLOC(reg, size) => LaidOut(ToBytes(i), 0, reg, size, 0)
            case FREE(reg) => LaidOut(ToBytes(i), 1, reg, 0, 0)
            case FREE_SIZED(reg, size) => LaidOut(ToBytes(i), 2, reg, size, 0)
            case MEMALIGN(reg, size, align) => LaidOut(ToBytes(i), 3, reg, size, align)
            case REALLOC(reg, newReg, newSize) => LaidOut(ToBytes(i), 4, reg, newReg, newSize)
            case SWITCH_THREAD(tid) => LaidOut(ToBytes(i), 5, 0, tid, 0)
            case KILL_THREAD => LaidOut(ToBytes(i), 6, 0, 0, 0)
            case SET_TS_CPU(ts, cpu) => LaidOut(ToBytes(i), 7, 0, ts, cpu)
  {
    hide Number, Bytes;
    var (reg, a, b) := FieldsOf(i);
    FieldsLaidOut(TypeOf(i), reg, a, b);
  }

  lemma FieldsLaidOut(kind: byte, reg: nat, a: nat, b: nat)
    requires reg < 0x100_0000_0000_0000 && a < TWO64 && b < TWO64
    ensures LaidOut(Bytes(kind + 256 * reg, 8) + Bytes(a, 8) + Bytes(b, 8), kind, reg, a, b)
  {
    var word := kind + 256 * reg;
    var x := Bytes(word, 8);
    EightBytes(word);
    EightBytes(a);
    EightBytes(b);
    ThreeWordsApart(x, Bytes(a, 8), Bytes(b, 8));
    FirstByte(x, kind, reg);
    assert (x + Bytes(a, 8) + Bytes(b, 8))[1..8] == x[1..];
  }

  lemma FirstByte(x: seq<byte>, kind: byte, reg: nat)
    requires x != [] && Number(x) == kind + 256 * reg
    ensures x[0] == kind && Number(x[1..]) == reg
  {
    hide Number;
    NumberSplit(x);
    SplitNumber(Number(x), kind, reg);
  }

  // What any record is read as; fields it does not use do not matter.
  lemma RecordRead(s: seq<byte>)
    requires |s| == 24
    ensures var reg, a, b := Number(s[1..8]), Number(s[8..16]), Number(s[16..24]);
            FromBytes(s) ==
            if s[0] == 0 then Some(MALLOC(reg, a))
            else if s[0] == 1 then Some(FREE(reg))
            else if s[0] == 2 then Some(FREE_SIZED(reg, a))
            else if s[0] == 3 then Some(MEMALIGN(reg, a, b))
            else if s[0] == 4 then Some(REALLOC(reg, a, b))
            else if s[0] == 5 then Some(SWITCH_THREAD(a))
            else if s[0] == 6 then Some(KILL_THREAD)
            else if s[0] == 7 then Some(SET_TS_CPU(a, b))
            else None
  {
    hide Number;
    NumberSplit(s[..8]);
    assert s[..8][1..] == s[1..8];
    SplitNumber(Number(s[..8]), s[0], Number(s[1..8]));
  }

  // The whole records of a file; None if one of them is of no known type.
  function Instructions(s: seq<byte>): Option<seq<Instruction>>
    decreases |s|
  {
    if |s| < RECORD_SIZE then Some([])
    else match (FromBytes(s[..RECORD_SIZE]), Instructions(s[RECORD_SIZE..]))
      case (Some(i), Some(rest)) => Some([i] + rest)
      case _ => None
  }

  function Dumped(out: seq<Instruction>): seq<byte>
    requires forall i :: i in out ==> Fits(i)
  {
    if out == [] then [] else ToBytes(out[0]) + Dumped(out[1..])
  }

  lemma RecordFirst(s: seq<byte>, t: seq<byte>, i: Instruction, rest: seq<Instruction>)
    requires |s| == RECORD_SIZE && FromBytes(s) == Some(i) && Instructions(t) == Some(rest)
    ensures Instructions(s + t) == Some([i] + rest)
  {
    assert (s + t)[..RECORD_SIZE] == s && (s + t)[RECORD_SIZE..] == t;
  }

  // What was dumped is what is read, even if the file was cut inside its last record.
  lemma {:induction false} DumpRoundTrip(out: seq<Instruction>, torn: seq<byte>)
    requires (forall i :: i in out ==> Fits(i)) && |torn| < RECORD_SIZE
    ensures Instructions(Dumped(out) + torn) == Some(out)
  {
    if out == [] {
      assert Dumped(out) + torn == torn;
    } else {
      InstructionRoundTrip(out[0]);
      DumpRoundTrip(out[1..], torn);
      RecordFirst(ToBytes(out[0]), Dumped(out[1..]) + torn, out[0], out[1..]);
      DumpedFirst(ToBytes(out[0]), Dumped(out[1..]), torn);
      assert [out[0]] + out[1..] == out;
    }
  }

  lemma DumpedFirst(s: seq<byte>, t: seq<byte>, torn: seq<byte>)
    ensures s + t + torn == s + (t + torn)
  {
  }

  // ---------- What is replayed ----------

  // Every instruction finds its registers where they exist, and passes replay's assertions.
  predicate Plays(out: seq<Instruction>) {
    out == [] ||
    var before, i := out[..|out| - 1], out[|out| - 1];
    Plays(before) && PlaysNext(before, i)
  }

  predicate PlaysNext(before: seq<Instruction>, i: Instruction) {
    && (forall r :: r in Names(i) ==> r < MAX_REGISTERS)
    && RegsAssert(RegsAfter(before), i) && ThreadAssert(ThreadAfter(before), i)
  }

  lemma {:induction false} TidyPlays(out: seq<Instruction>)
    requires TidyTrace(out) && forall k, r :: 0 <= k < |out| && r in Names(out[k]) ==> r < MAX_REGISTERS
    ensures Plays(out) <==> CrispTrace(out)
  {
    if out != [] {
      var before := out[..|out| - 1];
      forall k, r | 0 <= k < |before| && r in Names(before[k]) ensures r < MAX_REGISTERS {
        assert before[k] == out[k];
      }
      TidyPlays(before);
    }
  }

  lemma {:induction false} PlaysPart(xs: seq<Instruction>, ys: seq<Instruction>)
    requires Plays(xs + ys)
    ensures Plays(xs)
  {
    if ys == [] {
      assert xs + ys == xs;
    } else {
      assert (xs + ys)[..|xs + ys| - 1] == xs + ys[..|ys| - 1];
      PlaysPart(xs, ys[..|ys| - 1]);
    }
  }

  lemma PlaysSnoc(out: seq<Instruction>, i: Instruction)
    ensures Plays(out + [i]) <==> Plays(out) && PlaysNext(out, i)
  {
    assert (out + [i])[..|out|] == out;
  }

  // The registers hold the pointers that the instructions out leave in them.
  ghost predicate Holds(registers: seq<nat>, out: seq<Instruction>, ptrs: nat -> nat) {
    forall r :: 0 <= r < |registers| ==> registers[r] == PointerIn(out, ptrs, r)
  }

  // The player has replayed the instructions out, with ptrs(k) returned by the allocator to
  // instruction k.
  ghost predicate Played(player: Player, out: seq<Instruction>, ptrs: nat -> nat)
    reads player, player.registers
  {
    && player.Valid() && Plays(out)
    && player.sizes == RegsAfter(out) && player.currentThreadId == ThreadAfter(out)
    && player.allocatedCount == Wrap(CountAfter(out))
    && Holds(player.registers[..], out, ptrs) && player.requests == RequestsAfter(out, ptrs)
  }

  // The player has failed at the instruction behind out; registers and thread are as before it, and
  // the allocator may have been asked for memory.
  ghost predicate Halted(player: Player, out: seq<Instruction>, ptrs: nat -> nat)
    reads player, player.registers
  {
    && player.Valid() && Plays(out)
    && player.sizes == RegsAfter(out) && player.currentThreadId == ThreadAfter(out)
    && Holds(player.registers[..], out, ptrs)
    && RequestsAfter(out, ptrs) <= player.requests && |player.requests| <= |RequestsAfter(out, ptrs)| + 1
  }

  // Instructions in front of those of a file.
  function Behind(out: seq<Instruction>, rest: Option<seq<Instruction>>): Option<seq<Instruction>> {
    match rest
    case None => None
    case Some(more) => Some(out + more)
  }

  predicate Within(i: Instruction, n: nat) {
    match i
    case MALLOC(reg, _) => reg < n
    case FREE(reg) => reg < n
    case FREE_SIZED(reg, _) => reg < n
    case MEMALIGN(reg, _, _) => reg < n
    case REALLOC(reg, newReg, _) => reg < n && newReg < n
    case _ => true
  }

  lemma NamesWithin(i: Instruction, n: nat)
    requires forall r :: r in Names(i) ==> r < n
    ensures Within(i, n)
  {
    match i
    case MALLOC(reg, _) => assert reg in Names(i);
    case FREE(reg) => assert reg in Names(i);
    case FREE_SIZED(reg, _) => assert reg in Names(i);
    case MEMALIGN(reg, _, _) => assert reg in Names(i);
    case REALLOC(reg, newReg, _) => assert reg in Names(i) && newReg in Names(i);
    case _ =>
  }

  // Replay's assertions about registers, when m tells which of them are full.
  lemma AssertsOf(m: Registers, registers: seq<nat>, i: Instruction)
    requires (forall r: nat :: r in m <==> r < |registers| && registers[r] != 0) && Within(i, |registers|)
    ensures RegsAssert(m, i) <==>
            match i
            case MALLOC(reg, _) => registers[reg] == 0
            case FREE(reg) => registers[reg] != 0
            case FREE_SIZED(reg, _) => registers[reg] != 0
            case REALLOC(reg, _, _) => registers[reg] != 0
            case _ => true
  {
  }

  // The registers and requests after one instruction more.
  lemma HoldsMore(before: seq<nat>, after: seq<nat>, out: seq<Instruction>, ptrs: nat -> nat, i: Instruction)
    requires Holds(before, out, ptrs)
    requires Within(i, |before|) &&
             after ==
             match i
             case MALLOC(reg, _) => before[reg := ptrs(|out|)]
             case MEMALIGN(reg, _, _) => before[reg := ptrs(|out|)]
             case FREE(reg) => before[reg := 0]
             case FREE_SIZED(reg, _) => before[reg := 0]
             case REALLOC(reg, newReg, _) => before[reg := 0][newReg := ptrs(|out|)]
             case _ => before
    ensures Holds(after, out + [i], ptrs)
  {
    hide PointerIn, RequestsAfter, RequestsOf, HeldFor;
    PointersSnoc(out, ptrs, i);
    assert |after| == |before|;
    forall r | 0 <= r < |after| ensures after[r] == PointerIn(out + [i], ptrs, r) {
      assert before[r] == PointerIn(out, ptrs, r);
    }
  }

  lemma RequestsMore(before: seq<nat>, out: seq<Instruction>, ptrs: nat -> nat, i: Instruction)
    requires Holds(before, out, ptrs) && Within(i, |before|)
    ensures RequestsAfter(out + [i], ptrs) == RequestsAfter(out, ptrs) +
            match i
            case MALLOC(_, size) => [AskMalloc(size)]
            case MEMALIGN(_, size, align) => [AskMemalign(align, size)]
            case FREE(reg) => [GiveBack(before[reg])]
            case FREE_SIZED(reg, _) => [GiveBack(before[reg])]
            case REALLOC(reg, _, newSize) => [AskRealloc(before[reg], newSize)]
            case _ => []
  {
    hide PointerIn, RequestsAfter;
    PointersSnoc(out, ptrs, i);
  }

  // The record at hand is replayed.
  method PlayRecord(player: Player, record: seq<byte>, ptr: nat, ghost done: seq<Instruction>, ghost ptrs: nat -> nat)
    returns (outcome: Outcome, ghost now: seq<Instruction>)
    requires Played(player, done, ptrs) && |record| == RECORD_SIZE && ptr == ptrs(|done|)
    modifies player, player.registers
    ensures outcome.Done? ==>
              FromBytes(record).Some? && now == done + [FromBytes(record).value] && Played(player, now, ptrs)
    ensures !outcome.Done? ==> now == done && Halted(player, done, ptrs)
    ensures FromBytes(record).Some? && Plays(done + [FromBytes(record).value]) && ptr != 0 ==> outcome.Done?
  {
    hide FromBytes, Plays, Wrap, Holds, RegsAfter, RequestsAfter, CountAfter, ThreadAfter;
    now := done;
    var i := FromBytes(record);
    if i == None {
      return Aborted, done;
    }
    PlaysSnoc(done, i.value);
    TraceSnoc(done, i.value);
    ghost var before := player.registers[..];
    if forall r :: r in Names(i.value) ==> r < MAX_REGISTERS {
      NamesWithin(i.value, MAX_REGISTERS);
      AssertsOf(player.sizes, before, i.value);
    }
    outcome := player.ReplayInstruction(i.value, ptr);
    if !outcome.Done? {
      return;
    }
    now := done + [i.value];
    HoldsMore(before, player.registers[..], done, ptrs, i.value);
    RequestsMore(before, done, ptrs, i.value);
    CountWraps(CountAfter(done), CountChange(i.value));
  }

  lemma CountWraps(count: int, change: int)
    ensures Wrap(Wrap(count) + change) == Wrap(count + change)
  {
  }

  // One record more: if the whole file can be replayed, so can the part up to and including it.
  lemma OneRecordMore(all: Option<seq<Instruction>>, done: seq<Instruction>, record: seq<byte>, rest: seq<byte>)
    requires |record| == RECORD_SIZE && all == Behind(done, Instructions(record + rest))
    ensures FromBytes(record).Some? ==> all == Behind(done + [FromBytes(record).value], Instructions(rest))
    ensures all.Some? ==> FromBytes(record).Some?
    ensures all.Some? && Plays(all.value) ==> Plays(done + [FromBytes(record).value])
  {
    assert (record + rest)[..RECORD_SIZE] == record && (record + rest)[RECORD_SIZE..] == rest;
    if FromBytes(record).Some? && Instructions(rest).Some? {
      var i, more := FromBytes(record).value, Instructions(rest).value;
      assert done + ([i] + more) == done + [i] + more;
      if Plays(all.value) {
        PlaysPart(done + [i], more);
      }
    }
  }

  lemma NoRecordMore(all: Option<seq<Instruction>>, done: seq<Instruction>, rest: seq<byte>)
    requires all == Behind(done, Instructions(rest)) && |rest| < RECORD_SIZE
    ensures all == Some(done)
  {
    assert done + [] == done;
  }

  lemma BehindNothing(all: Option<seq<Instruction>>)
    ensures Behind([], all) == all
  {
    if all.Some? {
      assert [] + all.value == all.value;
    }
  }

  ghost predicate Separate(input: Input, player: Player) {
    {input, input.fd, input.buffer} !! {player, player.registers}
  }

  // A file that is read without failures, by an allocator that does not fail.
  ghost predicate Lucky(pattern: seq<Answer>, ptrs: nat -> nat) {
    Failed !in pattern && forall n: nat :: ptrs(n) != 0
  }

  // The first records of a file are the instructions out.
  ghost predicate Begins(file: seq<byte>, out: seq<Instruction>) {
    24 * |out| <= |file| && forall k :: 0 <= k < |out| ==> FromBytes(file[24 * k..24 * k + 24]) == Some(out[k])
  }

  // Behind those of out the file has no whole record, or one that cannot be carried out.
  ghost predicate Stops(file: seq<byte>, out: seq<Instruction>)
    requires 24 * |out| <= |file|
  {
    var rest := file[24 * |out|..];
    |rest| < RECORD_SIZE || match FromBytes(rest[..RECORD_SIZE]) case None => true case Some(i) => !Plays(out + [i])
  }

  lemma SlicesAt<T>(file: seq<T>, n: nat, part: seq<T>, rest: seq<T>)
    requires n <= |file| && file[n..] == part + rest
    ensures n + |part| <= |file| && file[n..n + |part|] == part && file[n + |part|..] == rest
    ensures file[n..][..|part|] == part
  {
    assert file[n..][..|part|] == part && file[n..][|part|..] == rest;
    assert |file| == n + |part| + |rest|;
    assert file[n..n + |part|] == file[n..][..|part|];
    assert file[n + |part|..] == file[n..][|part|..];
  }

  lemma BeginsWith(file: seq<byte>, out: seq<Instruction>, i: Instruction)
    requires Begins(file, out) && 24 * |out| + 24 <= |file| && FromBytes(file[24 * |out|..24 * |out| + 24]) == Some(i)
    ensures Begins(file, out + [i])
  {
    hide FromBytes;
    forall k | 0 <= k <= |out| ensures FromBytes(file[24 * k..24 * k + 24]) == Some((out + [i])[k]) {
    }
  }

  lemma BeginsMore(file: seq<byte>, out: seq<Instruction>, record: seq<byte>, rest: seq<byte>)
    requires Begins(file, out) && |record| == RECORD_SIZE && file[24 * |out|..] == record + rest
    ensures FromBytes(record).Some? ==>
              Begins(file, out + [FromBytes(record).value]) && file[24 * (|out| + 1)..] == rest
    ensures FromBytes(record) == None || !Plays(out + [FromBytes(record).value]) ==> Stops(file, out)
  {
    hide FromBytes, Plays;
    var n := 24 * |out|;
    SlicesAt(file, n, record, rest);
    assert 24 * (|out| + 1) == n + 24;
    if FromBytes(record).Some? {
      BeginsWith(file, out, FromBytes(record).value);
    }
  }

  // Replays a file, always reading one record ahead.  What it has carried out is the beginning of the
  // file; it is done when that is the whole file, of one record at least, and otherwise it has stopped
  // at a record that cannot be carried out, unless reading or allocating failed.
  method ReplayFile(input: Input, player: Player, ptrs: nat -> nat)
    returns (outcome: Outcome, ghost done: seq<Instruction>)
    requires input.Valid() && Played(player, [], ptrs) && Separate(input, player)
    modifies input, input.fd, input.buffer, player, player.registers
    ensures Begins(old(input.Rest()), done)
    ensures outcome.Done? ==> done != [] && Instructions(old(input.Rest())) == Some(done) && Played(player, done, ptrs)
    ensures !outcome.Done? ==> Halted(player, done, ptrs)
    ensures !outcome.Done? && Lucky(old(input.fd.pattern), ptrs) ==> Stops(old(input.Rest()), done)
    ensures var all := Instructions(old(input.Rest()));
            Lucky(old(input.fd.pattern), ptrs) ==>
              (outcome.Done? <==> all.Some? && all.value != [] && Plays(all.value))
  {
    ghost var whole := input.Rest();
    done := [];
    var ok, next, aborted := input.BufferRead(RECORD_SIZE);
    if aborted || !ok {
      return Aborted, done;
    }
    assert whole == next + input.Rest() && whole[24 * 0..] == whole;
    BehindNothing(Instructions(whole));
    outcome, done := ReplayFrom(input, player, next, ptrs, whole);
  }

  // first is the record read ahead.
  method ReplayFrom(input: Input, player: Player, first: seq<byte>, ptrs: nat -> nat, ghost whole: seq<byte>)
    returns (outcome: Outcome, ghost done: seq<Instruction>)
    requires input.Valid() && Played(player, [], ptrs) && Separate(input, player)
    requires |first| == RECORD_SIZE && whole == first + input.Rest()
    modifies input, input.fd, input.buffer, player, player.registers
    ensures Begins(whole, done)
    ensures outcome.Done? ==> done != [] && Instructions(whole) == Some(done) && Played(player, done, ptrs)
    ensures !outcome.Done? ==> Halted(player, done, ptrs)
    ensures !outcome.Done? && Lucky(old(input.fd.pattern), ptrs) ==> Stops(whole, done)
    ensures Lucky(old(input.fd.pattern), ptrs) && Instructions(whole).Some? && Plays(Instructions(whole).value) ==> outcome.Done?
  {
    hide FromBytes, Stops, Instructions, Plays, Played, Halted;
    ghost var all := Instructions(whole);
    done := [];
    var next, count := first, 0;
    BehindNothing(all);
    assert whole[24 * |done|..] == whole;
    PlaysNothing();
    PlayedHalts(player, done, ptrs);
    while true
      invariant input.Valid() && |next| == RECORD_SIZE && Played(player, done, ptrs) && Halted(player, done, ptrs)
      invariant count == |done|
      invariant all == Behind(done, Instructions(next + input.Rest()))
      invariant Begins(whole, done) && whole[24 * |done|..] == next + input.Rest()
      invariant forall a :: a in input.fd.pattern ==> a in old(input.fd.pattern)
      decreases |input.Rest()|
    {
      ghost var rest := input.Rest();
      OneRecordMore(all, done, next, rest);
      BeginsMore(whole, done, next, rest);
      var ok, ahead, aborted := input.BufferRead(RECORD_SIZE);
      if aborted {
        return Aborted, done;
      }
      if !ok {
        break;
      }
      assert rest == ahead + input.Rest();
      ghost var now;
      outcome, now := PlayRecord(player, next, ptrs(count), done, ptrs);
      if !outcome.Done? {
        return;
      }
      next, count, done := ahead, count + 1, now;
      PlayedHalts(player, done, ptrs);
    }
    ghost var rest, before := input.Rest(), done;
    outcome, done := PlayRecord(player, next, ptrs(count), done, ptrs);
    if outcome.Done? {
      NoRecordMore(all, done, rest);
    }
  }

  lemma PlaysNothing()
    ensures Plays([])
  {
  }

  lemma PlayedHalts(player: Player, out: seq<Instruction>, ptrs: nat -> nat)
    requires Played(player, out, ptrs)
    ensures Halted(player, out, ptrs)
  {
  }
}
