/** Every operation of the serializer keeps its invariant. */
module MachineInvariant {
  import opened Wrappers
  import opened Events
  import opened History
  import opened Calls
  import opened Machine

  lemma InitInv()
    ensures Inv(Init())
  {
  }

  // ---------- Arrival ----------

  lemma ExtendExtends(p: Program, t: Tid, evs: seq<Timed>)
    ensures Extends(p, Extend(p, t, evs))
  {
  }

  // An arrival gives thread t more to do and changes no thread's head event.
  lemma ArriveHeads(s: State, t: Tid, evs: seq<Timed>, u: Tid)
    requires Legal(s.prog, s.sched)
    ensures var z := Arrive(s, t, evs);
            && (s.Waiting(u) ==> z.Waiting(u) && z.Head(u) == s.Head(u))
            && (u != t ==> (z.Waiting(u) <==> s.Waiting(u)))
  {
    LegalStaysInProgram(s.prog, s.sched, u);
  }

  // From s to z, thread t may have got its first event; the other head events are the same.
  ghost predicate HeadsStay(s: State, z: State, t: Tid) {
    forall u ::
      && (s.Waiting(u) ==> z.Waiting(u) && z.Head(u) == s.Head(u))
      && (u != t ==> (z.Waiting(u) <==> s.Waiting(u)))
  }

  lemma HeadsStayInHeap(s: State, z: State, t: Tid)
    requires HeapOK(s) && NoneLost(s) && HeadsStay(s, z, t) && z.sleepers == s.sleepers
    requires !s.Waiting(t) ==> t !in s.sleepers
    requires z.heap == if !s.Waiting(t) && z.Waiting(t) then s.heap + multiset{Entry(t, z.Head(t).ts)} else s.heap
    ensures HeapOK(z) && NoneLost(z)
  {
    if !s.Waiting(t) && z.Waiting(t) {
      assert Entry(t, z.Head(t).ts) !in s.heap;
    }
  }

  lemma HeadsStayAwaited(s: State, z: State, t: Tid)
    requires WaitsOK(s) && HeadsStay(s, z, t) && z.sleepers == s.sleepers && z.pendingFrees == s.pendingFrees
    ensures WaitsOK(z)
  {
  }

  lemma ArriveKeepsQueues(s: State, t: Tid, evs: seq<Timed>)
    requires Legal(s.prog, s.sched) && HeapOK(s) && WaitsOK(s) && NoneLost(s)
    ensures var z := Arrive(s, t, evs); HeapOK(z) && WaitsOK(z) && NoneLost(z)
  {
    hide Legal, HeapOK, NoneLost;
    var z := Arrive(s, t, evs);
    forall u
      ensures s.Waiting(u) ==> z.Waiting(u) && z.Head(u) == s.Head(u)
      ensures u != t ==> (z.Waiting(u) <==> s.Waiting(u))
    {
      ArriveHeads(s, t, evs, u);
    }
    HeadsStayAwaited(s, z, t);
    HeadsStayInHeap(s, z, t);
  }

  lemma ArriveKeepsHistory(s: State, t: Tid, evs: seq<Timed>)
    requires HistoryOK(s) && TableOK(s) && WellFormed(Extend(s.prog, t, evs))
    ensures var z := Arrive(s, t, evs); HistoryOK(z) && TableOK(z) && Told(z.prog, z.sched) == Told(s.prog, s.sched)
  {
    var z := Arrive(s, t, evs);
    ExtendExtends(s.prog, t, evs);
    ExtendKeepsLegal(s.prog, z.prog, s.sched);
    ExtendKeepsTold(s.prog, z.prog, s.sched);
    forall u | z.Waiting(u) ensures u in z.threads {
      ArriveHeads(s, t, evs, u);
    }
  }

  lemma ArriveKeepsDeaths(s: State, t: Tid, evs: seq<Timed>)
    requires Legal(s.prog, s.sched) && DeathOK(s, s.toDie) && KillsOK(s) && t !in s.dead
    ensures var z := Arrive(s, t, evs); DeathOK(z, z.toDie) && KillsOK(z)
  {
    var z := Arrive(s, t, evs);
    forall u | u in z.signalled ensures !z.Waiting(u) {
      ArriveHeads(s, t, evs, u);
    }
  }

  lemma ArriveKeeps(s: State, t: Tid, evs: seq<Timed>)
    requires Inv(s) && Enabled(s, OpArrive(t, evs))
    ensures Inv(Arrive(s, t, evs))
  {
    ArriveKeepsHistory(s, t, evs);
    ArriveKeepsQueues(s, t, evs);
    ArriveKeepsDeaths(s, t, evs);
  }

  // ---------- Death ----------

  lemma DieKeeps(s: State, t: Tid)
    requires Inv(s) && Enabled(s, OpDie(t))
    ensures Inv(Die(s, t))
  {
    var z := Die(s, t);
    assert t in s.threads;
    assert t !in s.toDie;
    assert DeathOK(z, z.toDie);
    assert forall u :: z.Waiting(u) <==> s.Waiting(u);
  }

  // ---------- Going to sleep ----------

  // Nobody else waits for the token that the head of a runnable thread takes.
  lemma NobodyElseWaits(s: State, e: Entry)
    requires WellFormed(s.prog) && HeapOK(s) && WaitsOK(s)
    requires e in s.heap && s.Head(e.tid).ev.Takes().Some?
    ensures s.Head(e.tid).ev.Takes().value !in s.pendingFrees
  {
    var k := s.Head(e.tid).ev.Takes().value;
    if k in s.pendingFrees {
      var u := s.pendingFrees[k];
      assert TakesAt(s.prog, u, Count(s.sched, u), k);
      assert TakesAt(s.prog, e.tid, Count(s.sched, e.tid), k);
      assert false;
    }
  }

  lemma SleepKeepsQueues(s: State, e: Entry, k: Token)
    requires HeapOK(s) && WaitsOK(s) && NoneLost(s)
    requires e in s.heap && s.Head(e.tid).ev.Takes() == Some(k) && k !in s.pendingFrees
    ensures var z := Sleep(s, e, k); HeapOK(z) && WaitsOK(z) && NoneLost(z)
  {
    var z := Sleep(s, e, k);
    assert forall u :: z.Waiting(u) <==> s.Waiting(u);
    forall f | f in z.heap ensures f in s.heap && z.heap[f] == 1 && f.tid !in z.sleepers {
      assert f.tid == e.tid ==> f == e;
    }
    forall u | z.Waiting(u) && u !in z.sleepers ensures Entry(u, z.Head(u).ts) in z.heap {
      assert Entry(u, s.Head(u).ts) in s.heap && u != e.tid;
    }
  }

  lemma SleepKeeps(s: State, e: Entry)
    requires Inv(s) && e in s.heap && Blocked(s, e.tid)
    ensures Inv(Sleep(s, e, s.Head(e.tid).ev.Takes().value))
  {
    var k := s.Head(e.tid).ev.Takes().value;
    NobodyElseWaits(s, e);
    SleepKeepsQueues(s, e, k);
    SameHistory(s, Sleep(s, e, k));
  }

  // What does not depend on the queues.
  lemma SameHistory(s: State, z: State)
    requires z == s.(heap := z.heap, sleepers := z.sleepers, pendingFrees := z.pendingFrees)
    requires HistoryOK(s) && TableOK(s) && DeathOK(s, s.toDie) && LogOK(s) && KillsOK(s)
    ensures HistoryOK(z) && TableOK(z) && DeathOK(z, z.toDie) && LogOK(z) && KillsOK(z)
  {
    assert forall u :: z.Waiting(u) <==> s.Waiting(u);
  }

  // ---------- Delivery ----------

  lemma EmitHeads(s: State, t: Tid, u: Tid)
    requires s.Waiting(t)
    ensures var z := Emit(s, t);
            && (u != t ==> (z.Waiting(u) <==> s.Waiting(u)) && (s.Waiting(u) ==> z.Head(u) == s.Head(u)))
            && (z.Waiting(t) ==> z.Head(t) == s.prog[t][Count(s.sched, t) + 1])
  {
    CountSnoc(s.sched, t, u);
    CountSnoc(s.sched, t, t);
  }

  // Apart from the entry of the thread that moved on, the heap is as it was.
  lemma AdvanceHeap(s: State, e: Entry)
    requires HeapOK(s) && e in s.heap
    ensures var z := Advance(s, e);
            && (forall f :: f in s.heap && f.tid != e.tid ==> z.heap[f] == 1)
            && (forall f :: f in z.heap ==>
                  && z.heap[f] == 1
                  && if f.tid == e.tid then z.Waiting(f.tid) && f.key == z.Head(f.tid).ts else f in s.heap)
            && (z.Waiting(e.tid) ==> Entry(e.tid, z.Head(e.tid).ts) in z.heap)
  {
    var z := Advance(s, e);
    var rest := s.heap - multiset{e};
    forall f | f in rest ensures f in s.heap && rest[f] == 1 && f.tid != e.tid {
      assert f.tid == e.tid ==> f == e;
    }
    assert s.heap == rest + multiset{e};
    assert z.heap == rest + if z.Waiting(e.tid) then multiset{Entry(e.tid, z.Head(e.tid).ts)} else multiset{};
  }

  // Every thread but t has the same head event in s and z.
  ghost predicate OthersUnmoved(s: State, z: State, t: Tid) {
    forall u :: u != t ==> (z.Waiting(u) <==> s.Waiting(u)) && (s.Waiting(u) ==> z.Head(u) == s.Head(u))
  }

  lemma OthersStillWait(s: State, z: State, t: Tid)
    requires OthersUnmoved(s, z, t) && WaitsOK(s) && t !in s.sleepers
    requires z.pendingFrees == s.pendingFrees && z.sleepers == s.sleepers
    ensures WaitsOK(z)
  {
  }

  lemma AdvanceMovesOne(s: State, e: Entry)
    requires s.Waiting(e.tid)
    ensures OthersUnmoved(s, Advance(s, e), e.tid)
  {
    forall u
      ensures u != e.tid ==>
                (Advance(s, e).Waiting(u) <==> s.Waiting(u)) &&
                (s.Waiting(u) ==> Advance(s, e).Head(u) == s.Head(u))
    {
      EmitHeads(s, e.tid, u);
    }
  }

  lemma AdvanceKeepsHeap(s: State, e: Entry)
    requires HeapOK(s) && NoneLost(s) && e in s.heap
    ensures HeapOK(Advance(s, e)) && NoneLost(Advance(s, e))
  {
    var z := Advance(s, e);
    AdvanceMovesOne(s, e);
    AdvanceHeap(s, e);
    forall u | z.Waiting(u) && u !in z.sleepers ensures Entry(u, z.Head(u).ts) in z.heap {
      if u != e.tid {
        assert Entry(u, s.Head(u).ts) in s.heap;
      }
    }
  }

  lemma AdvanceKeepsQueues(s: State, e: Entry)
    requires HeapOK(s) && WaitsOK(s) && NoneLost(s) && e in s.heap
    ensures var z := Advance(s, e); HeapOK(z) && WaitsOK(z) && NoneLost(z)
  {
    AdvanceMovesOne(s, e);
    OthersStillWait(s, Advance(s, e), e.tid);
    AdvanceKeepsHeap(s, e);
  }

  lemma WakeKeepsQueues(s: State, token: Token)
    requires HeapOK(s) && WaitsOK(s) && NoneLost(s)
    requires forall k :: k in s.pendingFrees && k in s.live ==> k == token
    ensures var z := Wake(s, token); HeapOK(z) && WaitsOK(z) && NoneLost(z) && NoneOverslept(z)
  {
    var z := Wake(s, token);
    if token in s.pendingFrees {
      var t := s.pendingFrees[token];
      var e := Entry(t, s.Head(t).ts);
      assert e !in s.heap;
      assert z.heap == s.heap + multiset{e};
      assert forall u :: z.Waiting(u) <==> s.Waiting(u);
      forall u | u in z.sleepers
        ensures z.Waiting(u) && z.Head(u).ev.Takes().Some? && z.Head(u).ev.Takes().value in z.pendingFrees
      {
        assert u in s.sleepers && u != t;
        assert s.pendingFrees[s.Head(u).ev.Takes().value] == u;
      }
    }
  }

  lemma AdvanceKeepsHistory(s: State, e: Entry)
    requires HistoryOK(s) && s.Waiting(e.tid) && !Blocked(s, e.tid)
    ensures HistoryOK(Advance(s, e))
  {
    LegalSnoc(s.prog, s.sched, e.tid);
  }

  lemma AdvanceKeepsTable(s: State, e: Entry)
    requires TableOK(s) && DeathOK(s, s.toDie) && s.Waiting(e.tid)
    ensures var z := Advance(s, e); TableOK(z) && DeathOK(z, z.toDie)
  {
    var z := Advance(s, e);
    AdvanceMovesOne(s, e);
    assert z.Waiting(e.tid) ==> s.Waiting(e.tid);
  }

  // The only token that may come alive under a sleeper is the one just given.
  lemma AdvanceGives(s: State, e: Entry, k: Token)
    requires NoneOverslept(s) && s.Waiting(e.tid)
    requires k in Advance(s, e).pendingFrees && k in Advance(s, e).live
    ensures s.Head(e.tid).ev.Gives() == Some(k)
  {
  }

  lemma EmitKeepsLog(s: State, t: Tid)
    requires LogOK(s) && s.Waiting(t) && t !in s.signalled && t != INVALID_THREAD
    ensures var z := Emit(s, t);
            LogOK(z) && Current(z.log) == t && Kills(z.log) == Kills(s.log)
    ensures Crisp(Emit(s, t).log) <==> Crisp(s.log)
  {
    hide Current, Clock, Heard, Kills, Crisp, Told;
    var n := s.Head(t);
    var log1 := s.log + SwitchCalls(s, t);
    if t != s.recvThread {
      LogSnoc(s.log, SwitchThread(t));
    } else {
      assert log1 == s.log;
    }
    var log2 := log1 + ClockCalls(s, n.ts, n.cpu);
    if n.ts != s.recvTs || n.cpu != s.recvCpu {
      LogSnoc(log1, SetTS(n.ts, n.cpu));
    } else {
      assert log2 == log1;
    }
    LogSnoc(log2, Do(n.ev));
    ToldSnoc(s.prog, s.sched, t);
  }

  lemma AdvanceKeepsLog(s: State, e: Entry)
    requires DeathOK(s, s.toDie) && LogOK(s) && s.Waiting(e.tid) && e.tid != INVALID_THREAD
    ensures LogOK(Advance(s, e))
    ensures Crisp(Advance(s, e).log) <==> Crisp(s.log)
    ensures Kills(Advance(s, e).log) ==
            Kills(s.log) + if Advance(s, e).signalled == s.signalled then [] else [e.tid]
  {
    hide Current, Clock, Heard, Kills, Crisp, Told;
    EmitKeepsLog(s, e.tid);
    LogSnoc(Emit(s, e.tid).log, KillCurrentThread);
  }

  lemma AdvanceKeepsKills(s: State, e: Entry)
    requires TableOK(s) && DeathOK(s, s.toDie) && LogOK(s) && KillsOK(s)
    requires s.Waiting(e.tid) && e.tid != INVALID_THREAD
    ensures KillsOK(Advance(s, e))
  {
    AdvanceKeepsLog(s, e);
    assert e.tid !in Kills(s.log);
  }

  lemma DeliverKeepsQueues(s: State, e: Entry)
    requires WellFormed(s.prog)
    requires HeapOK(s) && WaitsOK(s) && NoneLost(s) && NoneOverslept(s) && e in s.heap && !Blocked(s, e.tid)
    ensures var z := Step(s, e); HeapOK(z) && WaitsOK(z) && NoneLost(z) && NoneOverslept(z)
  {
    var m := Advance(s, e);
    AdvanceKeepsQueues(s, e);
    var gives := s.Head(e.tid).ev.Gives();
    forall k | k in m.pendingFrees && k in m.live ensures gives == Some(k) {
      AdvanceGives(s, e, k);
    }
    if gives.Some? {
      assert GivesAt(s.prog, e.tid, Count(s.sched, e.tid), gives.value);
      WakeKeepsQueues(m, gives.value);
    }
  }

  lemma DeliverKeeps(s: State, e: Entry)
    requires Inv(s) && e in s.heap && !Blocked(s, e.tid)
    ensures Inv(Step(s, e))
    ensures Crisp(Step(s, e).log) <==> Crisp(s.log)
  {
    AdvanceKeepsHistory(s, e);
    AdvanceKeepsTable(s, e);
    AdvanceKeepsLog(s, e);
    AdvanceKeepsKills(s, e);
    SameHistory(Advance(s, e), Step(s, e));
    DeliverKeepsQueues(s, e);
  }

  lemma StepKeeps(s: State, e: Entry)
    requires Inv(s) && e in s.heap
    ensures Inv(Step(s, e))
    ensures Crisp(Step(s, e).log) <==> Crisp(s.log)
  {
    if Blocked(s, e.tid) {
      SleepKeeps(s, e);
    } else {
      DeliverKeeps(s, e);
    }
  }

  // ---------- The end of a round ----------

  // What holds while the dead threads are being looked at; doomed lists those still in the table.
  ghost predicate Reaping(s: State, doomed: seq<Tid>) {
    && HistoryOK(s) && TableOK(s) && s.heap == multiset{}
    && WaitsOK(s) && NoneOverslept(s) && NoneLost(s)
    && DeathOK(s, doomed) && LogOK(s) && KillsOK(s)
  }

  lemma ReapOneLog(s: State, t: Tid)
    ensures var z := ReapOne(s, t);
            && Heard(z.log) == Heard(s.log) && Clock(z.log) == Clock(s.log)
            && Current(z.log) == (if t in s.signalled then Current(s.log) else INVALID_THREAD)
            && Kills(z.log) == Kills(s.log) + (if t in s.signalled then [] else [t])
            && (Crisp(z.log) <==>
                Crisp(s.log) && (t in s.signalled || (t != Current(s.log) && t != INVALID_THREAD)))
  {
    LogSnoc(s.log, SwitchThread(t));
    LogSnoc(s.log + [SwitchThread(t)], KillCurrentThread);
    assert s.log + [SwitchThread(t), KillCurrentThread] == s.log + [SwitchThread(t)] + [KillCurrentThread];
  }

  lemma DropOne(left: seq<Tid>, t: Tid, right: seq<Tid>)
    requires Distinct(left + [t] + right)
    ensures Distinct(left + right)
    ensures forall u :: u in left + right <==> u in left + [t] + right && u != t
  {
    var all, rest := left + [t] + right, left + right;
    assert all[|left|] == t;
    assert forall i :: 0 <= i < |rest| ==> rest[i] == all[if i < |left| then i else i + 1];
    forall u | u in all && u != t ensures u in rest {
      var i :| 0 <= i < |all| && all[i] == u;
      assert u == rest[if i < |left| then i else i - 1];
    }
  }

  lemma ReapOneKills(s: State, t: Tid)
    requires KillsOK(s) && t in s.threads && t in s.dead
    ensures KillsOK(ReapOne(s, t))
  {
    ReapOneLog(s, t);
  }

  lemma ReapOneKeeps(s: State, t: Tid, left: seq<Tid>, right: seq<Tid>)
    requires Reaping(s, left + [t] + right) && t !in s.sleepers
    ensures Reaping(ReapOne(s, t), left + right)
  {
    hide WellFormed, Legal, Live, Told, Heard, Clock, Current, Kills;
    var z := ReapOne(s, t);
    assert t in left + [t] + right;
    DropOne(left, t, right);
    ReapOneLog(s, t);
    ReapOneKills(s, t);
    assert forall u :: z.Waiting(u) <==> s.Waiting(u);
    assert !s.Waiting(t);
    assert DeathOK(z, left + right);
  }

  lemma {:induction false} ReapEachKeeps(s: State, todo: seq<Tid>, kept: seq<Tid>)
    requires Reaping(s, kept + todo) && forall t :: t in kept ==> t in s.sleepers
    ensures var z := ReapEach(s, todo, kept);
            && Reaping(z, z.toDie) && (forall t :: t in z.toDie ==> t in z.sleepers)
            && z == s.(toDie := z.toDie, threads := z.threads, log := z.log, recvThread := z.recvThread)
    decreases |todo|
  {
    if todo == [] {
      assert kept + todo == kept;
      assert forall t :: ReapEach(s, todo, kept).Waiting(t) <==> s.Waiting(t);
    } else {
      var t := todo[0];
      if t in s.sleepers {
        assert kept + [t] + todo[1..] == kept + todo;
        ReapEachKeeps(s, todo[1..], kept + [t]);
      } else {
        assert kept + [t] + todo[1..] == kept + todo;
        ReapOneKeeps(s, t, kept, todo[1..]);
        ReapEachKeeps(ReapOne(s, t), todo[1..], kept);
      }
    }
  }

  lemma ReapKeeps(s: State)
    requires Inv(s) && s.heap == multiset{}
    ensures Inv(Reap(s)) && forall t :: t in Reap(s).toDie ==> t in Reap(s).sleepers
    ensures var z := Reap(s);
            z == s.(toDie := z.toDie, threads := z.threads, log := z.log, recvThread := z.recvThread)
  {
    assert [] + s.toDie == s.toDie;
    ReapEachKeeps(s, s.toDie, []);
    var m, z := ReapEach(s, s.toDie, []), Reap(s);
    assert forall t :: z.Waiting(t) <==> m.Waiting(t);
    LogSnoc(m.log, Barrier);
  }

  // ---------- All operations ----------

  lemma ExecKeeps(s: State, op: Op)
    requires Inv(s) && Enabled(s, op)
    ensures Inv(Exec(s, op))
  {
    match op
    case OpArrive(t, evs) => ArriveKeeps(s, t, evs);
    case OpDie(t) => DieKeeps(s, t);
    case OpPick(e) => StepKeeps(s, e);
    case OpReap => ReapKeeps(s);
  }

  // The invariant holds after every run.
  lemma {:induction false} RunKeeps(s: State, ops: seq<Op>, z: State)
    requires Inv(s) && Run(s, ops, z)
    ensures Inv(z)
    decreases |ops|
  {
    if ops != [] {
      ExecKeeps(s, ops[0]);
      RunKeeps(Exec(s, ops[0]), ops[1..], z);
    }
  }

  // A run can be continued.
  lemma {:induction false} RunSnoc(s: State, ops: seq<Op>, z: State, op: Op)
    requires Run(s, ops, z) && Enabled(z, op)
    ensures Run(s, ops + [op], Exec(z, op))
    decreases |ops|
  {
    if ops != [] {
      assert (ops + [op])[1..] == ops[1..] + [op];
      RunSnoc(Exec(s, ops[0]), ops[1..], z, op);
    } else {
      assert ([op])[1..] == [];
    }
  }
}
