/** Trace files on which assertions of the source fail, whatever run is made of them. */
module Counterexamples {
  import opened Wrappers
  import opened Words
  import opened Events
  import opened History
  import opened Calls
  import opened Machine
  import opened MachineTheorems
  import opened LinkedLogs
  import opened Varint
  import opened TraceCodec
  import opened ThreadCodec
  import opened OuterStream
  import opened Serializers
  import opened SerializeTraces
  import opened Sessions
  import EndToEnd
  import Receiver

  // ---------- Runs with given inputs ----------

  lemma {:induction false} InputsCons(op: Op, rest: seq<Op>)
    ensures Inputs([op] + rest) == (if op.OpPick? then [] else [op]) + Inputs(rest)
    decreases |rest|
  {
    var all := [op] + rest;
    if rest == [] {
      assert all[..0] == [] && all[0] == op;
    } else {
      var n := |rest| - 1;
      InputsCons(op, rest[..n]);
      assert all[..|all| - 1] == [op] + rest[..n] && all[|all| - 1] == rest[n];
    }
  }

  // With an empty heap, a run goes on with its next input.
  lemma NextIsInput(s: State, ops: seq<Op>, z: State, input: Op, inputs: seq<Op>)
    requires Run(s, ops, z) && Inputs(ops) == [input] + inputs && s.heap == multiset{}
    ensures ops != [] && ops[0] == input && !input.OpPick? && Enabled(s, input)
    ensures Run(Exec(s, input), ops[1..], z) && Inputs(ops[1..]) == inputs
  {
    assert ops == [ops[0]] + ops[1..];
    InputsCons(ops[0], ops[1..]);
    assert !ops[0].OpPick?;
    assert ([input] + inputs)[0] == input && ([input] + inputs)[1..] == inputs;
  }

  // With one thread in the heap, it goes on with that thread or with an input that is not the end of
  // the round.
  lemma NextIsPick(s: State, ops: seq<Op>, z: State, e: Entry, input: Op, inputs: seq<Op>)
    requires Run(s, ops, z) && Inputs(ops) == [input] + inputs && s.heap == multiset{e} && s.Waiting(e.tid)
    ensures ops != []
    ensures || (ops[0] == OpPick(e) && Run(Step(s, e), ops[1..], z) && Inputs(ops[1..]) == [input] + inputs)
            || (&& ops[0] == input && !input.OpPick? && !input.OpReap? && Enabled(s, input)
                && Run(Exec(s, input), ops[1..], z) && Inputs(ops[1..]) == inputs)
  {
    assert ops == [ops[0]] + ops[1..];
    InputsCons(ops[0], ops[1..]);
    if ops[0].OpPick? {
      assert ops[0].e in s.heap;
      assert [] + Inputs(ops[1..]) == Inputs(ops[1..]);
    } else {
      assert ([input] + inputs)[0] == input && ([input] + inputs)[1..] == inputs;
      assert s.heap != multiset{};
    }
  }

  // ---------- A thread with one event ----------

  // The buffer of thread 1: a token record, which sets its clock, and one record more.
  function OneBuffer(e: Traced): Item {
    Handed(1, Chunk(1024, 0, [TTok(0, 1024, 0), e]))
  }

  lemma {:induction false} RecordsAreShort(es: seq<Traced>, st: EncState)
    ensures |EncodeRecords(es, st).0| <= 18 * |es|
  {
    if es != [] {
      var words := EncodeEvent(es[0], st).0;
      RecordsAreShort(es[1..], EncodeEvent(es[0], st).1);
      if |words| == 1 {
        assert words == [words[0]];
        OneWord(words[0]);
      } else {
        assert words == [words[0], words[1]];
        TwoWords(words[0], words[1]);
      }
    }
  }

  lemma OneBufferFits(e: Traced)
    requires Modest(e)
    ensures ModestItem(OneBuffer(e)) && Writable(RecordOf(OneBuffer(e), map[]))
  {
    RecordsAreShort([TTok(0, 1024, 0), e], EncState(0, 0));
  }

  // The one event of the buffer.
  function OneEvent(e: Traced): Timed
    requires !e.TTok?
  {
    Timed(Meaning(e, DecState(0, 0, 0, 1024, 0)).0.value, 1024, 0)
  }

  lemma OneBufferMeans(e: Traced, clocks: Clocks)
    requires !e.TTok?
    ensures EventsOf([TTok(0, 1024, 0), e], DecoderFor(NOTHING, 1, clocks)) == [OneEvent(e)]
  {
    var es, d, d1 := [TTok(0, 1024, 0), e], DecoderFor(NOTHING, 1, clocks), DecState(0, 0, 0, 1024, 0);
    assert es[1..] == [e] && [e][1..] == [];
    assert Meaning(es[0], d) == (None, d1);
    assert EventsOfOne(e, d1) == [OneEvent(e)];
    assert EventsOf([], Meaning(e, d1).1) == [];
    assert EventsOf([e], d1) == [OneEvent(e)];
  }

  lemma OneEventProgram(n: Timed)
    requires n.ev.Gives() != Some(EMPTY_TOKEN)
    ensures Extend(map[], 1, [n]) == map[1 := [n]] && WellFormed(map[1 := [n]])
  {
    assert [] + [n] == [n];
  }

  // Once it has arrived, the thread is alone in the heap.
  lemma OneArrives(n: Timed)
    ensures var s := Arrive(Init(), 1, [n]);
            && s.prog == map[1 := [n]] && s.sched == [] && s.heap == multiset{Entry(1, n.ts)}
            && s.Waiting(1) && s.Head(1) == n
            && s == Init().(prog := s.prog, threads := s.threads, heap := s.heap)
  {
    assert [] + [n] == [n];
  }

  // A thread that has delivered its last event leaves the heap, and nobody is woken.
  lemma AdvanceOfLast(s: State, e: Entry)
    requires s.Waiting(e.tid) && !Blocked(s, e.tid) && e.tid !in s.dead && s.pendingFrees == map[]
    requires Count(s.sched + [e.tid], e.tid) >= |s.prog[e.tid]|
    ensures Step(s, e) == Emit(s, e.tid).(heap := s.heap - multiset{e})
  {
  }

  // ---------- A death that is read a round late ----------

  // Thread 1 allocates once; after a barrier it dies.
  function LateDeath(): seq<Item> {
    [OneBuffer(TMalloc(8)), Synced(1024, 0), Ended(1, 1024, 0)]
  }

  function LateDeathInputs(): seq<Op> {
    [OpArrive(1, [Timed(Malloc(0, 8), 1024, 0)]), OpReap, OpDie(1), OpReap]
  }

  lemma LateDeathMeans(clocks: Clocks)
    ensures UnderstandAll(LateDeath(), NOTHING, clocks).Some?
    ensures UnderstandAll(LateDeath(), NOTHING, clocks).value.inputs == LateDeathInputs()
    ensures UnderstandAll(LateDeath(), NOTHING, clocks).value.prog == map[1 := [Timed(Malloc(0, 8), 1024, 0)]]
  {
    hide WellFormed, EventsOf, After;
    var items, n := LateDeath(), Timed(Malloc(0, 8), 1024, 0);
    OneBufferMeans(TMalloc(8), clocks);
    OneEventProgram(n);
    var t1 := Understand(items[0], NOTHING, clocks).value;
    assert t1.prog == map[1 := [n]] && t1.inputs == [OpArrive(1, [n])];
    var t2 := EndOfRound(t1);
    var t3 := Understand(items[2], t2, clocks).value;
    assert items[1..] == [items[1], items[2]] && items[1..][1..] == [items[2]] && items[1..][1..][1..] == [];
    assert UnderstandAll([items[2]], t2, clocks) == UnderstandAll([], t3, clocks) == Some(EndOfRound(t3));
  }

  lemma LateDeathWritable()
    ensures ItemsCarry(LateDeath(), map[]) && forall ev :: ev in RecordsOf(LateDeath(), map[]) ==> Writable(ev)
  {
    hide EncodeRecords, EncodeEvent, Encoded;
    var items := LateDeath();
    OneBufferFits(TMalloc(8));
    ModestItemsCarry(items, map[]);
    var encs := EncodersAfter(items[0], map[]);
    assert items[1..] == [items[1], items[2]] && items[1..][1..] == [items[2]] && items[1..][1..][1..] == [];
    assert RecordsOf([items[2]], encs) == [RecordOf(items[2], encs), End];
    assert RecordsOf(items[1..], encs) == [RecordOf(items[1], encs), RecordOf(items[2], encs), End];
    assert RecordsOf(items, map[]) == [RecordOf(items[0], map[]), RecordOf(items[1], encs), RecordOf(items[2], encs), End];
  }

  // What every run has come to when the last round of that session ends.
  lemma LateDeathEnds(n: Timed, ops: seq<Op>, z: State)
    requires n.ev.Malloc? && Run(Init(), ops, z) && Inputs(ops) == [OpArrive(1, [n]), OpReap, OpDie(1), OpReap]
    ensures Redundant(Init(), ops)
  {
    hide WellFormed, Inputs, Step, Emit;
    NextIsInput(Init(), ops, z, OpArrive(1, [n]), [OpReap, OpDie(1), OpReap]);
    OneArrives(n);
    var s1, ops1, e := Arrive(Init(), 1, [n]), ops[1..], Entry(1, n.ts);
    NextIsPick(s1, ops1, z, e, OpReap, [OpDie(1), OpReap]);
    MallocDelivered(n);
    var s2, ops2 := Step(s1, e), ops1[1..];
    NextIsInput(s2, ops2, z, OpReap, [OpDie(1), OpReap]);
    var s3, ops3 := Reap(s2), ops2[1..];
    NextIsInput(s3, ops3, z, OpDie(1), [OpReap]);
    var s4, ops4 := Die(s3, 1), ops3[1..];
    NextIsInput(s4, ops4, z, OpReap, []);
    assert s4.toDie == [1];
    assert FirstKill(s4, s4.toDie) == Some(s4.recvThread);
    assert Redundant(s4, ops4);
    assert Redundant(s3, ops3);
    assert Redundant(s2, ops2);
    assert Redundant(s1, ops1);
  }

  lemma MallocDelivered(n: Timed)
    requires n.ev.Malloc?
    ensures var s, e := Arrive(Init(), 1, [n]), Entry(1, n.ts);
            s.Waiting(1) &&
            var z := Step(s, e);
            && z.heap == multiset{} && z.recvThread == 1 && z.toDie == []
            && z.sleepers == {} && z.signalled == {}
  {
    OneArrives(n);
    CountSnoc([], 1, 1);
    AdvanceOfLast(Arrive(Init(), 1, [n]), Entry(1, n.ts));
  }

  // The file is one the serializer accepts; and whatever run it makes of it, the last round ends with
  // a switch to the thread that is already the current one.
  lemma RedundantSwitchHappens(clocks: Clocks, ops: seq<Op>, s: State)
    ensures forall ev :: ev in RecordsOf(LateDeath(), map[]) ==> Writable(ev)
    ensures var data := FileOfSession(LateDeath());
            && HasMagic(data) && Acceptable(data, clocks)
            && (Run(Init(), ops, s) && Inputs(ops) == TraceFrom(data[|MAGIC|..], NOTHING, clocks).value.inputs ==>
                  Redundant(Init(), ops) && !Crisp(s.log))
  {
    var n := Timed(Malloc(0, 8), 1024, 0);
    LateDeathWritable();
    LateDeathMeans(clocks);
    OneEventProgram(n);
    SessionIsAcceptable(LateDeath(), clocks);
    if Run(Init(), ops, s) && Inputs(ops) == LateDeathInputs() {
      LateDeathEnds(n, ops, s);
      InitReachable();
      RunIsCrisp(Init(), ops, s);
    }
  }

  // ---------- A thread that dies asleep ----------

  // Some round ends while a doomed thread still has events.
  ghost predicate Undrained(s: State, ops: seq<Op>)
    decreases |ops|
  {
    ops != [] &&
    (|| (ops[0].OpReap? && exists t :: t in s.toDie && s.Waiting(t))
     || ((ops[0].OpPick? ==> s.Waiting(ops[0].e.tid)) && Undrained(Exec(s, ops[0]), ops[1..])))
  }

  // Thread 1 frees a token nobody allocates, then dies.
  function DeadSleeper(): seq<Item> {
    [OneBuffer(TFree(7)), Ended(1, 1024, 0)]
  }

  function DeadSleeperInputs(): seq<Op> {
    [OpArrive(1, [Timed(Free(7), 1024, 0)]), OpDie(1), OpReap]
  }

  lemma DeadSleeperMeans(clocks: Clocks)
    ensures UnderstandAll(DeadSleeper(), NOTHING, clocks).Some?
    ensures UnderstandAll(DeadSleeper(), NOTHING, clocks).value.inputs == DeadSleeperInputs()
    ensures UnderstandAll(DeadSleeper(), NOTHING, clocks).value.prog == map[1 := [Timed(Free(7), 1024, 0)]]
  {
    hide WellFormed, EventsOf, After;
    var items, n := DeadSleeper(), Timed(Free(7), 1024, 0);
    OneBufferMeans(TFree(7), clocks);
    OneEventProgram(n);
    var t1 := Understand(items[0], NOTHING, clocks).value;
    assert t1.prog == map[1 := [n]] && t1.inputs == [OpArrive(1, [n])];
    var t2 := Understand(items[1], t1, clocks).value;
    assert items[1..] == [items[1]] && items[1..][1..] == [];
    assert UnderstandAll([items[1]], t1, clocks) == UnderstandAll([], t2, clocks) == Some(EndOfRound(t2));
  }

  lemma DeadSleeperWritable()
    ensures ItemsCarry(DeadSleeper(), map[]) && forall ev :: ev in RecordsOf(DeadSleeper(), map[]) ==> Writable(ev)
  {
    hide EncodeRecords, EncodeEvent, Encoded;
    var items := DeadSleeper();
    OneBufferFits(TFree(7));
    ModestItemsCarry(items, map[]);
    var encs := EncodersAfter(items[0], map[]);
    assert items[1..] == [items[1]] && items[1..][1..] == [];
    assert RecordsOf([items[1]], encs) == [RecordOf(items[1], encs), End];
    assert RecordsOf(items, map[]) == [RecordOf(items[0], map[]), RecordOf(items[1], encs), End];
  }

  // The thread may fall asleep before its death is read, or after it.
  lemma DeadSleeperEnds(n: Timed, ops: seq<Op>, z: State)
    requires n.ev.Free? && Run(Init(), ops, z) && Inputs(ops) == [OpArrive(1, [n]), OpDie(1), OpReap]
    ensures Undrained(Init(), ops)
  {
    hide WellFormed, Inputs;
    NextIsInput(Init(), ops, z, OpArrive(1, [n]), [OpDie(1), OpReap]);
    OneArrives(n);
    var s1, ops1, e := Arrive(Init(), 1, [n]), ops[1..], Entry(1, n.ts);
    NextIsPick(s1, ops1, z, e, OpDie(1), [OpReap]);
    var ops2 := ops1[1..];
    assert s1.live == {} && Blocked(s1, 1);
    if ops1[0].OpPick? {
      var s2 := Step(s1, e);
      NextIsInput(s2, ops2, z, OpDie(1), [OpReap]);
      AsleepAtTheEnd(Die(s2, 1), n, ops2[1..], z);
      assert Undrained(s2, ops2);
    } else {
      var s2 := Die(s1, 1);
      assert s2.Waiting(1) && s2.Head(1) == n && Blocked(s2, 1);
      NextIsPick(s2, ops2, z, e, OpReap, []);
      AsleepAtTheEnd(Step(s2, e), n, ops2[1..], z);
      assert Undrained(s2, ops2);
    }
    assert Undrained(s1, ops1);
  }

  lemma AsleepAtTheEnd(s: State, n: Timed, ops: seq<Op>, z: State)
    requires s.prog == map[1 := [n]] && s.sched == [] && s.heap == multiset{} && s.toDie == [1]
    requires Run(s, ops, z) && Inputs(ops) == [OpReap]
    ensures Undrained(s, ops)
  {
    assert [OpReap] + [] == [OpReap];
    NextIsInput(s, ops, z, OpReap, []);
    assert 1 in s.toDie && s.Waiting(1);
  }

  // The file is one the serializer accepts; and whatever run it makes of it, its round ends while the
  // doomed thread still has its event.
  lemma DrainedAssertionFails(clocks: Clocks, ops: seq<Op>, s: State)
    ensures forall ev :: ev in RecordsOf(DeadSleeper(), map[]) ==> Writable(ev)
    ensures var data := FileOfSession(DeadSleeper());
            && HasMagic(data) && Acceptable(data, clocks)
            && (Run(Init(), ops, s) && Inputs(ops) == TraceFrom(data[|MAGIC|..], NOTHING, clocks).value.inputs ==>
                  Undrained(Init(), ops))
  {
    var n := Timed(Free(7), 1024, 0);
    DeadSleeperWritable();
    DeadSleeperMeans(clocks);
    OneEventProgram(n);
    SessionIsAcceptable(DeadSleeper(), clocks);
    if Run(Init(), ops, s) && Inputs(ops) == DeadSleeperInputs() {
      DeadSleeperEnds(n, ops, s);
    }
  }

  // ---------- A trace without events ----------

  // The file of a session in which nothing happened is one the serializer accepts; no round of it ends
  // with a redundant switch, and yet replay does not carry out its output, because there is none.
  lemma EmptyTraceIsRefused(clocks: Clocks, ops: seq<Op>, s: State, order: seq<Token>)
    ensures forall ev :: ev in RecordsOf([], map[]) ==> Writable(ev)
    ensures var data := FileOfSession([]);
            && HasMagic(data) && Acceptable(data, clocks)
            && (&& Run(Init(), ops, s) && Inputs(ops) == TraceFrom(data[|MAGIC|..], NOTHING, clocks).value.inputs
                && Receiver.Lists(order, Receiver.HearAll(s.log).cells)
                ==> EndToEnd.Written(s, order) == [] && !Redundant(Init(), ops))
  {
    assert UnderstandAll([], NOTHING, clocks) == Some(EndOfRound(NOTHING));
    assert [] + [OpReap] == [OpReap];
    SessionIsAcceptable([], clocks);
    if Run(Init(), ops, s) && Inputs(ops) == [OpReap] && Receiver.Lists(order, Receiver.HearAll(s.log).cells) {
      NothingHappens(ops, s);
      EndToEnd.WrittenIsEmpty(ops, s, order);
    }
  }

  lemma ReapOfNothing()
    ensures var z := Reap(Init()); z.sched == [] && z.heap == multiset{} && Kills(z.log) == []
  {
    LogSnoc([], Barrier);
    assert [] + [Call.Barrier] == [Call.Barrier];
  }

  lemma NothingHappens(ops: seq<Op>, s: State)
    requires Run(Init(), ops, s) && Inputs(ops) == [OpReap]
    ensures EndToEnd.Idle(s) && !Redundant(Init(), ops)
  {
    hide WellFormed, Inputs, Reap;
    assert [OpReap] + [] == [OpReap];
    NextIsInput(Init(), ops, s, OpReap, []);
    ReapOfNothing();
    NoMoreInputs(Reap(Init()), ops[1..], s);
    assert FirstKill(Init(), []) == None;
  }

  lemma NoMoreInputs(s: State, ops: seq<Op>, z: State)
    requires Run(s, ops, z) && Inputs(ops) == [] && s.heap == multiset{}
    ensures ops == [] && z == s
  {
    if ops != [] {
      assert ops == [ops[0]] + ops[1..];
      InputsCons(ops[0], ops[1..]);
    }
  }
}
