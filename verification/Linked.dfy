/** The serializer's calls are ones the receiver can follow. */
module LinkedLogs {
  import opened Wrappers
  import opened Events
  import opened History
  import opened Calls
  import opened Machine
  import opened MachineInvariant
  import opened MachineTheorems
  import Receiver
  import Replay

  // The receiver can follow the log, and holds the tokens the serializer takes it to hold.
  ghost predicate Followed(s: State) {
    Receiver.Orderly(s.log) && s.live == Receiver.Alive(s.log)
  }

  lemma QuietSnoc(log: seq<Call>, c: Call)
    requires !c.Do?
    ensures Receiver.Orderly(log + [c]) <==> Receiver.Orderly(log)
    ensures Receiver.Alive(log + [c]) == Receiver.Alive(log)
  {
    Receiver.AliveSnoc(log, c);
  }

  // The log when thread t has been announced, just before its event.
  function Announced(s: State, t: Tid): seq<Call>
    requires s.Waiting(t)
  {
    s.log + SwitchCalls(s, t) + ClockCalls(s, s.Head(t).ts, s.Head(t).cpu)
  }

  lemma AnnouncedFollows(s: State, t: Tid)
    requires Followed(s) && s.Waiting(t)
    ensures Receiver.Orderly(s.log + SwitchCalls(s, t))
    ensures Receiver.Orderly(Announced(s, t)) && Receiver.Alive(Announced(s, t)) == s.live
  {
    var log1 := s.log + SwitchCalls(s, t);
    if t != s.recvThread {
      QuietSnoc(s.log, SwitchThread(t));
    } else {
      assert log1 == s.log;
    }
    var n := s.Head(t);
    if n.ts != s.recvTs || n.cpu != s.recvCpu {
      QuietSnoc(log1, SetTS(n.ts, n.cpu));
    } else {
      assert Announced(s, t) == log1;
    }
  }

  // An event that is delivered takes a live token, and gives a new one.
  lemma EmitFollows(s: State, t: Tid)
    requires HistoryOK(s) && Followed(s) && s.Waiting(t) && !Blocked(s, t)
    ensures Followed(Emit(s, t))
  {
    var ev := s.Head(t).ev;
    AnnouncedFollows(s, t);
    Receiver.AliveSnoc(Announced(s, t), Do(ev));
    assert ToSet(ev.Takes()) <= s.live;
    if ev.Gives().Some? {
      NextIsNew(s.prog, s.sched, t, ev.Gives().value);
      LiveIffGivenNotTaken(s.prog, s.sched, ev.Gives().value);
    }
  }

  lemma AdvanceFollows(s: State, e: Entry)
    requires HistoryOK(s) && Followed(s) && s.Waiting(e.tid) && !Blocked(s, e.tid)
    ensures Followed(Advance(s, e))
  {
    EmitFollows(s, e.tid);
    QuietSnoc(Emit(s, e.tid).log, KillCurrentThread);
  }

  lemma StepFollows(s: State, e: Entry)
    requires HistoryOK(s) && Followed(s) && s.Waiting(e.tid)
    ensures Followed(Step(s, e))
  {
    if !Blocked(s, e.tid) {
      AdvanceFollows(s, e);
    }
  }

  lemma ReapOneFollows(s: State, t: Tid)
    requires Followed(s)
    ensures Followed(ReapOne(s, t))
  {
    QuietSnoc(s.log, SwitchThread(t));
    QuietSnoc(s.log + [SwitchThread(t)], KillCurrentThread);
    assert s.log + [SwitchThread(t), KillCurrentThread] == s.log + [SwitchThread(t)] + [KillCurrentThread];
  }

  lemma {:induction false} ReapEachFollows(s: State, todo: seq<Tid>, kept: seq<Tid>)
    requires Followed(s)
    ensures Followed(ReapEach(s, todo, kept))
    decreases |todo|
  {
    if todo != [] {
      if todo[0] in s.sleepers {
        ReapEachFollows(s, todo[1..], kept + [todo[0]]);
      } else {
        ReapOneFollows(s, todo[0]);
        ReapEachFollows(ReapOne(s, todo[0]), todo[1..], kept);
      }
    }
  }

  lemma ExecFollows(s: State, op: Op)
    requires Inv(s) && Followed(s) && Enabled(s, op)
    ensures Followed(Exec(s, op))
  {
    match op
    case OpArrive(t, evs) =>
    case OpDie(t) =>
    case OpPick(e) => StepFollows(s, e);
    case OpReap =>
      ReapEachFollows(s, s.toDie, []);
      QuietSnoc(ReapEach(s, s.toDie, []).log, Barrier);
  }

  lemma {:induction false} RunFollows(s: State, ops: seq<Op>, z: State)
    requires Inv(s) && Followed(s) && Run(s, ops, z)
    ensures Followed(z)
    decreases |ops|
  {
    if ops != [] {
      ExecKeeps(s, ops[0]);
      ExecFollows(s, ops[0]);
      RunFollows(Exec(s, ops[0]), ops[1..], z);
    }
  }

  lemma ReachableFollowed(s: State)
    requires Reachable(s)
    ensures Followed(s)
  {
    var ops :| Run(Init(), ops, s);
    InitInv();
    RunFollows(Init(), ops, s);
  }

  // ---------- The whole pipeline ----------

  // Register safety: after any run, the instructions of the receiver make a tidy trace -- every
  // target register is empty and every source register full -- and the full registers, the table
  // of live tokens and the id space agree; the counter of replay is the number of live tokens; and
  // the registers named are exactly those below the peak number of objects alive at once.
  lemma PipelineIsSafe(s: State)
    requires Reachable(s)
    ensures var r := Receiver.HearAll(s.log);
            && Replay.TidyTrace(r.out)
            && Receiver.Matched(r.cells, r.ids, Replay.RegsAfter(r.out))
            && (forall k :: k in r.cells <==> k in s.live)
            && Replay.CountAfter(r.out) == |s.live|
            && Receiver.Held(r.counts) == |s.live|
            && (forall reg: nat :: Receiver.Named(r.out, reg) <==> reg < Receiver.Peak(s.log))
  {
    ReachableFollowed(s);
    forall reg: nat ensures Receiver.Named(Receiver.HearAll(s.log).out, reg) <==> reg < Receiver.Peak(s.log) {
      Receiver.NamedIffBelowPeak(s.log, reg);
    }
    Receiver.HearAllKeeps(s.log);
    Replay.CountIsFull(Receiver.HearAll(s.log).out);
  }

  // All of replay's assertions about threads hold exactly when no round ended by killing, as the
  // first of its threads, the one the receiver was last told of.
  ghost predicate Redundant(s: State, ops: seq<Op>)
    decreases |ops|
  {
    ops != [] &&
    (|| (ops[0].OpReap? && FirstKill(s, s.toDie) == Some(s.recvThread))
     || ((ops[0].OpPick? ==> s.Waiting(ops[0].e.tid)) && Redundant(Exec(s, ops[0]), ops[1..])))
  }

  lemma {:induction false} RunIsCrisp(s: State, ops: seq<Op>, z: State)
    requires Reachable(s) && Run(s, ops, z)
    ensures Crisp(z.log) <==> Crisp(s.log) && !Redundant(s, ops)
    decreases |ops|
  {
    if ops != [] {
      SwitchesAreCrisp(s, ops[0]);
      ReachableStep(s, ops[0]);
      RunIsCrisp(Exec(s, ops[0]), ops[1..], z);
    }
  }

  lemma PipelineIsCrisp(ops: seq<Op>, s: State)
    requires Run(Init(), ops, s)
    ensures Replay.CrispTrace(Receiver.HearAll(s.log).out) <==> !Redundant(Init(), ops)
  {
    InitReachable();
    RunIsCrisp(Init(), ops, s);
    assert Reachable(s);
    ReachableFollowed(s);
    Receiver.HearAllKeeps(s.log);
  }
}
