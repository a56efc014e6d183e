/** What each operation of the serializer says to the receiver, told from what was said before. */
module SaidCalls {
  import opened Wrappers
  import opened Events
  import opened History
  import opened Calls
  import opened Machine
  import opened MachineInvariant
  import opened MachineTheorems

  // A thread's event is announced by a switch if another thread, or none, is current, and by a clock if
  // the receiver was last told another one; a dead thread is killed right behind its last event.  The
  // end of a round switches to each dead thread that has nothing left and was not killed, kills it, and
  // ends with a barrier.
  function Said(s: State, op: Op): seq<Call>
    requires op.OpPick? ==> s.Waiting(op.e.tid)
  {
    match op
    case OpArrive(_, _) => []
    case OpDie(_) => []
    case OpPick(e) =>
      var n := s.Head(e.tid);
      if n.ev.Takes().Some? && n.ev.Takes().value !in s.live then []
      else
        (if Current(s.log) == e.tid then [] else [SwitchThread(e.tid)])
        + (if Clock(s.log) == (n.ts, n.cpu) then [] else [SetTS(n.ts, n.cpu)])
        + [Do(n.ev)]
        + (if e.tid in s.dead && Count(s.sched, e.tid) + 1 == |s.prog[e.tid]| then [KillCurrentThread] else [])
    case OpReap => Burials(s, s.toDie) + [Barrier]
  }

  function Burials(s: State, doomed: seq<Tid>): seq<Call> {
    if doomed == [] then []
    else
      (if s.Waiting(doomed[0]) || doomed[0] in Kills(s.log) then [] else [SwitchThread(doomed[0]), KillCurrentThread])
      + Burials(s, doomed[1..])
  }

  // Those of ts that still have events, in order.
  function Unfinished(s: State, ts: seq<Tid>): seq<Tid> {
    if ts == [] then [] else (if s.Waiting(ts[0]) then [ts[0]] else []) + Unfinished(s, ts[1..])
  }

  // ---------- Turns ----------

  // Whom and what the serializer takes the receiver to have been told of last is what the log says, as
  // far as a thread with events is concerned.
  lemma CurrentIsKnown(s: State, t: Tid)
    requires Inv(s) && s.Waiting(t)
    ensures Current(s.log) == t <==> s.recvThread == t
    ensures Clock(s.log) == (s.recvTs, s.recvCpu)
  {
  }

  lemma EmitSays(s: State, t: Tid)
    requires Inv(s) && s.Waiting(t)
    ensures var n := s.Head(t);
            Emit(s, t).log == s.log
            + ((if Current(s.log) == t then [] else [SwitchThread(t)])
               + (if Clock(s.log) == (n.ts, n.cpu) then [] else [SetTS(n.ts, n.cpu)])
               + [Do(n.ev)])
  {
    CurrentIsKnown(s, t);
  }

  lemma PickSays(s: State, e: Entry)
    requires Inv(s) && e in s.heap
    ensures Step(s, e).log == s.log + Said(s, OpPick(e)) && Step(s, e).toDie == s.toDie
  {
    hide Inv, Step, Advance, Emit, Current, Clock, Count, Legal;
    assert s.Waiting(e.tid) && Legal(s.prog, s.sched) by {
      InvWaits(s, e);
    }
    StepEffect(s, e);
    EmitSays(s, e.tid);
    AdvanceSays(s, e);
    StepDoomed(s, e);
  }

  lemma InvWaits(s: State, e: Entry)
    requires Inv(s) && e in s.heap
    ensures s.Waiting(e.tid) && Legal(s.prog, s.sched)
  {
  }

  lemma AdvanceSays(s: State, e: Entry)
    requires s.Waiting(e.tid)
    ensures Advance(s, e).log == Emit(s, e.tid).log
            + if e.tid in s.dead && Count(s.sched, e.tid) + 1 == |s.prog[e.tid]| then [KillCurrentThread] else []
  {
    EmitHeads(s, e.tid, e.tid);
    CountSnoc(s.sched, e.tid, e.tid);
  }

  lemma StepDoomed(s: State, e: Entry)
    requires s.Waiting(e.tid)
    ensures Step(s, e).toDie == s.toDie && Step(s, e).threads == s.threads
  {
    AdvanceDoomed(s, e);
  }

  lemma AdvanceDoomed(s: State, e: Entry)
    requires s.Waiting(e.tid)
    ensures Advance(s, e).toDie == s.toDie && Advance(s, e).threads == s.threads
  {
  }

  // ---------- The end of a round ----------

  lemma ReapOneSays(s: State, m: State, t: Tid)
    requires m.signalled == s.signalled && !s.Waiting(t) && (t in s.signalled <==> t in Kills(s.log))
    ensures var z := ReapOne(m, t);
            && z.log == m.log + (if s.Waiting(t) || t in Kills(s.log) then [] else [SwitchThread(t), KillCurrentThread])
            && z.sleepers == m.sleepers && z.signalled == m.signalled
  {
    assert m.log + [] == m.log;
  }

  lemma {:induction false} ReapEachSays(s: State, m: State, todo: seq<Tid>, kept: seq<Tid>)
    requires m.sleepers == s.sleepers && m.signalled == s.signalled
    requires forall t :: t in todo ==> (t in s.sleepers <==> s.Waiting(t)) && (t in s.signalled <==> t in Kills(s.log))
    ensures ReapEach(m, todo, kept).log == m.log + Burials(s, todo)
    ensures ReapEach(m, todo, kept).toDie == kept + Unfinished(s, todo)
    decreases |todo|
  {
    hide ReapOne, Kills;
    if todo != [] {
      var t := todo[0];
      assert t in todo;
      if t in s.sleepers {
        ReapEachSays(s, m, todo[1..], kept + [t]);
        assert kept + [t] + Unfinished(s, todo[1..]) == kept + Unfinished(s, todo);
        assert Burials(s, todo) == Burials(s, todo[1..]);
      } else {
        ReapOneSays(s, m, t);
        ReapEachSays(s, ReapOne(m, t), todo[1..], kept);
        assert Unfinished(s, todo) == Unfinished(s, todo[1..]);
      }
    }
  }

  lemma ReapSays(s: State)
    requires Inv(s) && s.heap == multiset{}
    ensures Reap(s).log == s.log + Said(s, OpReap) && Reap(s).toDie == Unfinished(s, s.toDie)
  {
    ReapEachSays(s, s, s.toDie, []);
    assert [] + Unfinished(s, s.toDie) == Unfinished(s, s.toDie);
  }

  // Every operation says exactly that, in every run.
  lemma WhatIsSaid(s: State, op: Op)
    requires Reachable(s) && Enabled(s, op)
    ensures Exec(s, op).log == s.log + Said(s, op)
    ensures Exec(s, op).toDie ==
            if op.OpDie? then s.toDie + [op.t] else if op.OpReap? then Unfinished(s, s.toDie) else s.toDie
  {
    ReachableInv(s);
    match op
    case OpArrive(t, evs) => assert s.log + [] == s.log;
    case OpDie(t) => assert s.log + [] == s.log;
    case OpPick(e) => PickSays(s, e);
    case OpReap => ReapSays(s);
  }

  // ---------- Deaths ----------

  // A dead thread is killed by the turn that delivers its last event, and that is the last thing said.
  lemma KilledAtOnce(s: State, e: Entry)
    requires Reachable(s) && Enabled(s, OpPick(e)) && e.tid in s.dead
    ensures var z := Exec(s, OpPick(e));
            !z.Waiting(e.tid) ==> z.log != [] && z.log[|z.log| - 1] == KillCurrentThread && e.tid in Kills(z.log)
  {
    ReachableInv(s);
    WhatIsSaid(s, OpPick(e));
    StepEffect(s, e);
    var z := Exec(s, OpPick(e));
    if !z.Waiting(e.tid) {
      CountSnoc(s.sched, e.tid, e.tid);
      assert !Blocked(s, e.tid);
      EmitSays(s, e.tid);
      EmitKeepsLog(s, e.tid);
      LogSnoc(Emit(s, e.tid).log, KillCurrentThread);
      assert z.log == Emit(s, e.tid).log + [KillCurrentThread];
    }
  }

  // The deaths read, in order.
  function Deaths(ops: seq<Op>): seq<Tid> {
    if ops == [] then []
    else Deaths(ops[..|ops| - 1]) + if ops[|ops| - 1].OpDie? then [ops[|ops| - 1].t] else []
  }

  // Those of ts that are in the set, in order.
  function Among(ts: seq<Tid>, kept: set<Tid>): seq<Tid> {
    if ts == [] then []
    else Among(ts[..|ts| - 1], kept) + if ts[|ts| - 1] in kept then [ts[|ts| - 1]] else []
  }

  lemma AmongSnoc(ts: seq<Tid>, t: Tid, kept: set<Tid>)
    ensures Among(ts + [t], kept) == Among(ts, kept) + if t in kept then [t] else []
  {
    assert (ts + [t])[..|ts|] == ts;
  }

  lemma {:induction false} AmongSame(ts: seq<Tid>, kept: set<Tid>, other: set<Tid>)
    requires forall t :: t in ts ==> (t in kept <==> t in other)
    ensures Among(ts, kept) == Among(ts, other)
  {
    if ts != [] {
      var before, t := ts[..|ts| - 1], ts[|ts| - 1];
      assert t in ts && forall u :: u in before ==> u in ts;
      AmongSame(before, kept, other);
    }
  }

  lemma {:induction false} AmongTwice(ts: seq<Tid>, kept: set<Tid>, fewer: set<Tid>)
    requires forall t :: t in fewer ==> t in kept
    ensures Among(Among(ts, kept), fewer) == Among(ts, fewer)
  {
    if ts != [] {
      var before, t := ts[..|ts| - 1], ts[|ts| - 1];
      AmongTwice(before, kept, fewer);
      if t in kept {
        AmongSnoc(Among(before, kept), t, fewer);
        assert Among(ts, kept) == Among(before, kept) + [t];
      } else {
        assert Among(ts, kept) == Among(before, kept) + [] == Among(before, kept);
      }
    }
  }

  lemma {:induction false} UnfinishedAmong(s: State, ts: seq<Tid>, kept: set<Tid>)
    requires forall t :: t in ts ==> (t in kept <==> s.Waiting(t))
    ensures Unfinished(s, ts) == Among(ts, kept)
  {
    if ts != [] {
      var t, rest := ts[0], ts[1..];
      assert t in ts && forall u :: u in rest ==> u in ts;
      UnfinishedAmong(s, rest, kept);
      AmongCons(t, rest, kept);
      assert [t] + rest == ts;
    } else {
      assert Unfinished(s, ts) == [] == Among(ts, kept);
    }
  }

  lemma {:induction false} AmongCons(t: Tid, ts: seq<Tid>, kept: set<Tid>)
    ensures Among([t] + ts, kept) == (if t in kept then [t] else []) + Among(ts, kept)
    decreases |ts|
  {
    if ts == [] {
      assert [t] + [] == [] + [t];
      AmongSnoc([], t, kept);
    } else {
      var before, last := ts[..|ts| - 1], ts[|ts| - 1];
      AmongCons(t, before, kept);
      assert [t] + ts == ([t] + before) + [last];
      AmongSnoc([t] + before, last, kept);
    }
  }

  // The threads that are doomed, in the order in which their deaths were read.
  ghost predicate DoomedOK(s: State, deaths: seq<Tid>) {
    (forall t :: t in deaths ==> t in s.dead) && s.toDie == Among(deaths, s.threads)
  }

  lemma DeathsSnoc(ops: seq<Op>, op: Op)
    ensures Deaths(ops + [op]) == Deaths(ops) + if op.OpDie? then [op.t] else []
  {
    assert (ops + [op])[..|ops|] == ops;
  }

  lemma ReapDoomed(s: State, deaths: seq<Tid>)
    requires Inv(s) && s.heap == multiset{} && DoomedOK(s, deaths)
    ensures DoomedOK(Reap(s), deaths)
  {
    var z := Reap(s);
    ReapSays(s);
    assert (forall t :: t in z.threads ==> t in s.threads) && z.dead == s.dead by {
      ReapTable(s, s.toDie, []);
      ReapKeepsInputs(s);
    }
    assert forall t :: t in s.toDie ==> (t in z.threads <==> s.Waiting(t)) by {
      ReapKeeps(s);
      assert forall t :: z.Waiting(t) <==> s.Waiting(t);
    }
    UnfinishedAmong(s, s.toDie, z.threads);
    AmongTwice(deaths, s.threads, z.threads);
  }

  lemma ExecDoomed(s: State, op: Op, deaths: seq<Tid>)
    requires Inv(s) && Enabled(s, op) && DoomedOK(s, deaths)
    ensures DoomedOK(Exec(s, op), deaths + if op.OpDie? then [op.t] else [])
  {
    assert deaths + [] == deaths;
    match op
    case OpArrive(t, evs) => AmongSame(deaths, s.threads, Exec(s, op).threads);
    case OpDie(t) => AmongSnoc(deaths, t, s.threads);
    case OpPick(e) =>
      StepDoomed(s, e);
      StepDead(s, e);
    case OpReap => ReapDoomed(s, deaths);
  }

  lemma StepDead(s: State, e: Entry)
    requires s.Waiting(e.tid)
    ensures Step(s, e).dead == s.dead
  {
    AdvanceDead(s, e);
  }

  lemma AdvanceDead(s: State, e: Entry)
    requires s.Waiting(e.tid)
    ensures Advance(s, e).dead == s.dead
  {
  }

  lemma {:induction false} RunDoomed(s: State, ops: seq<Op>, z: State, before: seq<Op>)
    requires Inv(s) && Run(s, ops, z) && DoomedOK(s, Deaths(before))
    ensures DoomedOK(z, Deaths(before + ops))
    decreases |ops|
  {
    hide Inv, DoomedOK, Deaths, Exec;
    if ops == [] {
      assert before + ops == before;
    } else {
      ExecDoomed(s, ops[0], Deaths(before));
      ExecKeeps(s, ops[0]);
      DeathsSnoc(before, ops[0]);
      RunDoomed(Exec(s, ops[0]), ops[1..], z, before + [ops[0]]);
      assert before + [ops[0]] + ops[1..] == before + ops;
    }
  }

  // The threads still to be buried are the dead ones of the table, in the order of their deaths.
  lemma DoomedInOrder(ops: seq<Op>, s: State)
    requires Run(Init(), ops, s)
    ensures s.toDie == Among(Deaths(ops), s.threads)
  {
    assert Inv(Init()) by {
      InitInv();
    }
    assert [] + ops == ops;
    RunDoomed(Init(), ops, s, []);
  }

  // ---------- Clocks ----------

  // A clock is told only if it differs from the one told last.
  predicate Terse(log: seq<Call>) {
    log == [] ||
    var before, c := log[..|log| - 1], log[|log| - 1];
    Terse(before) && (c.SetTS? ==> (c.ts, c.cpu) != Clock(before))
  }

  lemma TerseSnoc(log: seq<Call>, c: Call)
    ensures Terse(log + [c]) <==> Terse(log) && (c.SetTS? ==> (c.ts, c.cpu) != Clock(log))
  {
    assert (log + [c])[..|log|] == log;
  }

  lemma EmitTerse(s: State, t: Tid)
    requires s.Waiting(t) && Terse(s.log) && Clock(s.log) == (s.recvTs, s.recvCpu)
    ensures Terse(Emit(s, t).log)
  {
    var n := s.Head(t);
    var log1 := s.log + SwitchCalls(s, t);
    if t != s.recvThread {
      TerseSnoc(s.log, SwitchThread(t));
      LogSnoc(s.log, SwitchThread(t));
    } else {
      assert log1 == s.log;
    }
    var log2 := log1 + ClockCalls(s, n.ts, n.cpu);
    if n.ts != s.recvTs || n.cpu != s.recvCpu {
      TerseSnoc(log1, SetTS(n.ts, n.cpu));
    } else {
      assert log2 == log1;
    }
    TerseSnoc(log2, Do(n.ev));
  }

  lemma {:induction false} BurialsTerse(log: seq<Call>, s: State, doomed: seq<Tid>)
    requires Terse(log)
    ensures Terse(log + Burials(s, doomed))
    decreases |doomed|
  {
    if doomed == [] {
      assert log + Burials(s, doomed) == log;
    } else {
      var t, rest := doomed[0], Burials(s, doomed[1..]);
      if s.Waiting(t) || t in Kills(s.log) {
        assert Burials(s, doomed) == rest;
        BurialsTerse(log, s, doomed[1..]);
      } else {
        TerseSnoc(log, SwitchThread(t));
        TerseSnoc(log + [SwitchThread(t)], KillCurrentThread);
        BurialsTerse(log + [SwitchThread(t)] + [KillCurrentThread], s, doomed[1..]);
        assert log + Burials(s, doomed) == log + [SwitchThread(t)] + [KillCurrentThread] + rest;
      }
    }
  }

  lemma PickTerse(s: State, e: Entry)
    requires s.Waiting(e.tid) && Terse(s.log) && Clock(s.log) == (s.recvTs, s.recvCpu)
    ensures Terse(Step(s, e).log)
  {
    hide Terse, Clock;
    StepEffect(s, e);
    if !Blocked(s, e.tid) {
      EmitTerse(s, e.tid);
      AdvanceSays(s, e);
      TerseSnoc(Emit(s, e.tid).log, KillCurrentThread);
      assert Emit(s, e.tid).log + [] == Emit(s, e.tid).log;
    }
  }

  lemma ReapTerse(s: State)
    requires Inv(s) && s.heap == multiset{} && Terse(s.log)
    ensures Terse(Reap(s).log)
  {
    hide Inv, Terse, Reap, Burials;
    ReapSays(s);
    BurialsTerse(s.log, s, s.toDie);
    TerseSnoc(s.log + Burials(s, s.toDie), Barrier);
    assert s.log + (Burials(s, s.toDie) + [Barrier]) == s.log + Burials(s, s.toDie) + [Barrier];
  }

  lemma ExecTerse(s: State, op: Op)
    requires Inv(s) && Enabled(s, op) && Terse(s.log)
    ensures Terse(Exec(s, op).log)
  {
    match op
    case OpArrive(t, evs) =>
    case OpDie(t) =>
    case OpPick(e) => PickTerse(s, e);
    case OpReap => ReapTerse(s);
  }

  lemma {:induction false} RunTerse(s: State, ops: seq<Op>, z: State)
    requires Inv(s) && Run(s, ops, z) && Terse(s.log)
    ensures Terse(z.log)
    decreases |ops|
  {
    hide Inv, Terse;
    if ops != [] {
      ExecKeeps(s, ops[0]);
      ExecTerse(s, ops[0]);
      RunTerse(Exec(s, ops[0]), ops[1..], z);
    }
  }

  // In every run, the receiver is told of a clock only when it is another one than it knows.
  lemma ClocksAreNews(s: State)
    requires Reachable(s)
    ensures Terse(s.log)
  {
    var ops :| Run(Init(), ops, s);
    InitInv();
    RunTerse(Init(), ops, s);
  }
}
