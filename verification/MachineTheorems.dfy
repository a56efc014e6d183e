/** What the serializer guarantees of every run. */
module MachineTheorems {
  import opened Wrappers
  import opened Events
  import opened History
  import opened Calls
  import opened Machine
  import opened MachineInvariant

  // s is a state some run leads to.
  ghost predicate Reachable(s: State) {
    exists ops :: Run(Init(), ops, s)
  }

  lemma ReachableInv(s: State)
    requires Reachable(s)
    ensures Inv(s)
  {
    var ops :| Run(Init(), ops, s);
    InitInv();
    RunKeeps(Init(), ops, s);
  }

  lemma ReachableStep(s: State, op: Op)
    requires Reachable(s) && Enabled(s, op)
    ensures Reachable(Exec(s, op))
  {
    var ops :| Run(Init(), ops, s);
    RunSnoc(Init(), ops, s, op);
  }

  // ---------- Scheduling ----------

  // The top of the heap always has an event, and no thread of the heap has an earlier one: the
  // timestamps the heap was ordered by are still those of its threads.
  lemma EarliestFirst(s: State, e: Entry)
    requires Reachable(s) && Least(s.heap, e)
    ensures Enabled(s, OpPick(e))
    ensures forall f :: f in s.heap ==> s.Waiting(f.tid) && s.Head(e.tid).ts <= s.Head(f.tid).ts
  {
    ReachableInv(s);
  }

  // No lost wake-up: a thread with an event to deliver is in the heap, once, or asleep under
  // exactly the token its event takes, never both; and that token is not alive.
  lemma NoLostWakeUp(s: State, t: Tid)
    requires Reachable(s)
    ensures s.Waiting(t) <==> t in s.sleepers || exists e :: e in s.heap && e.tid == t
    ensures t in s.sleepers ==> !exists e :: e in s.heap && e.tid == t
    ensures forall e, f :: e in s.heap && f in s.heap && e.tid == t == f.tid ==> e == f && s.heap[e] == 1
    ensures t in s.sleepers <==> exists k :: k in s.pendingFrees && s.pendingFrees[k] == t
    ensures forall k :: k in s.pendingFrees && s.pendingFrees[k] == t ==>
              s.Waiting(t) && s.Head(t).ev.Takes() == Some(k) && k !in s.live
  {
    ReachableInv(s);
  }

  // The threads that pending_frees, the heap and to_die point to are all still in the table.
  lemma NothingDangles(s: State)
    requires Reachable(s)
    ensures forall e :: e in s.heap ==> e.tid in s.threads
    ensures forall k :: k in s.pendingFrees ==> s.pendingFrees[k] in s.threads
    ensures forall t :: t in s.toDie ==> t in s.threads
  {
    ReachableInv(s);
  }

  // The events decoded and not yet delivered.
  function Left(p: Program, h: seq<Tid>): set<(Tid, int)> {
    set t, i | t in p && Count(h, t) <= i < |p[t]| :: (t, i)
  }

  lemma LeftSnoc(p: Program, h: seq<Tid>, t: Tid)
    requires HasNext(p, h, t)
    ensures |Left(p, h + [t])| == |Left(p, h)| - 1
  {
    forall u ensures Count(h + [t], u) == Count(h, u) + if t == u then 1 else 0 {
      CountSnoc(h, t, u);
    }
    assert (t, Count(h, t)) in Left(p, h);
    assert Left(p, h + [t]) == Left(p, h) - {(t, Count(h, t))};
  }

  function Undelivered(s: State): nat {
    |Left(s.prog, s.sched)|
  }

  lemma AdvanceEffect(s: State, e: Entry)
    requires s.Waiting(e.tid)
    ensures Advance(s, e).prog == s.prog && Advance(s, e).sched == s.sched + [e.tid]
  {
  }

  lemma StepEffect(s: State, e: Entry)
    requires s.Waiting(e.tid)
    ensures var z := Step(s, e);
            z.prog == s.prog &&
            if Blocked(s, e.tid) then z.sched == s.sched && z.log == s.log && z.heap == s.heap - multiset{e}
            else z.sched == s.sched + [e.tid] && z.log == Advance(s, e).log
  {
    AdvanceEffect(s, e);
  }

  // The drain loop ends: each turn delivers an event, or takes a thread out of the heap.
  lemma DrainEnds(s: State, e: Entry)
    requires s.Waiting(e.tid) && e in s.heap
    ensures var z := Step(s, e);
            || Undelivered(z) < Undelivered(s)
            || (Undelivered(z) == Undelivered(s) && |z.heap| < |s.heap|)
  {
    StepEffect(s, e);
    if !Blocked(s, e.tid) {
      LeftSnoc(s.prog, s.sched, e.tid);
    }
  }

  // ---------- What a round delivers ----------

  lemma EmptyHeapIsStuck(s: State)
    requires Inv(s) && s.heap == multiset{}
    ensures Stuck(s.prog, s.sched)
  {
    forall t | HasNext(s.prog, s.sched, t)
      ensures var takes := Next(s.prog, s.sched, t).ev.Takes(); takes.Some? && takes.value !in s.live
    {
      assert s.Waiting(t) && t in s.sleepers;
    }
  }

  // At a barrier everything that could be delivered has been: no legal ordering of the events read
  // so far gets further with any thread.
  lemma BarrierIsMaximal(s: State, h: seq<Tid>)
    requires Reachable(s) && s.heap == multiset{} && Legal(s.prog, h)
    ensures Legal(s.prog, s.sched)
    ensures forall t :: Count(h, t) <= Count(s.sched, t)
  {
    ReachableInv(s);
    EmptyHeapIsStuck(s);
    forall t ensures Count(h, t) <= Count(s.sched, t) {
      StuckIsMaximal(s.prog, s.sched, h, t);
    }
  }

  // Confluence: two runs that read the same events deliver the same events by the barrier, and
  // leave the same tokens alive, whatever the timestamps, ties and wake-ups were.
  lemma BarrierIsConfluent(s: State, z: State)
    requires Reachable(s) && s.heap == multiset{} && Reachable(z) && z.heap == multiset{}
    requires SameEvents(s.prog, z.prog)
    ensures forall t :: Count(s.sched, t) == Count(z.sched, t)
    ensures s.live == z.live
    ensures forall t :: t in s.sleepers <==> t in z.sleepers
    ensures forall k :: k in s.pendingFrees <==> k in z.pendingFrees
    ensures forall k :: k in s.pendingFrees ==> z.pendingFrees[k] == s.pendingFrees[k]
  {
    ReachableInv(s);
    ReachableInv(z);
    EmptyHeapIsStuck(s);
    EmptyHeapIsStuck(z);
    StuckIsUnique(s.prog, s.sched, z.prog, z.sched);
    assert SameEvents(z.prog, s.prog);
    SameSleepers(s, z);
    SameSleepers(z, s);
  }

  lemma SameSleepers(s: State, z: State)
    requires Inv(s) && s.heap == multiset{} && Inv(z) && z.heap == multiset{}
    requires SameEvents(s.prog, z.prog) && forall t :: Count(s.sched, t) == Count(z.sched, t)
    ensures forall t :: t in s.sleepers ==> t in z.sleepers
    ensures forall k :: k in s.pendingFrees ==> k in z.pendingFrees && z.pendingFrees[k] == s.pendingFrees[k]
  {
    forall t | t in s.sleepers ensures t in z.sleepers && z.Head(t).ev == s.Head(t).ev {
      assert s.Waiting(t) && z.Waiting(t);
    }
  }

  // No deadlock: if the events read so far can be ordered legally at all, every one of them has
  // been delivered by the barrier, and nobody sleeps.
  lemma BarrierIsComplete(s: State, h: seq<Tid>)
    requires Reachable(s) && s.heap == multiset{}
    requires Legal(s.prog, h) && forall t :: t in s.prog ==> Count(h, t) == |s.prog[t]|
    ensures forall t :: t in s.prog ==> Count(s.sched, t) == |s.prog[t]|
    ensures s.sleepers == {} && s.pendingFrees == map[]
  {
    ReachableInv(s);
    EmptyHeapIsStuck(s);
    StuckIsComplete(s.prog, s.sched, h);
    forall t ensures t !in s.sleepers {
      assert !s.Waiting(t);
    }
    forall k ensures k !in s.pendingFrees {
    }
  }

  // ---------- What the receiver hears ----------

  // The receiver hears every thread's events in the thread's own order, each one attributed to
  // that thread at the time and on the cpu it happened.
  lemma HeardInOrder(s: State, t: Tid)
    requires Reachable(s) && t in s.prog
    ensures Heard(s.log) == Told(s.prog, s.sched)
    ensures Count(s.sched, t) <= |s.prog[t]| && Of(Heard(s.log), t) == s.prog[t][..Count(s.sched, t)]
  {
    ReachableInv(s);
    ToldInOrder(s.prog, s.sched, t);
  }

  // ---------- Deaths ----------

  // After a barrier exactly the dead threads that are drained have been killed, each once; the
  // dead ones that sleep are carried over.
  lemma DeathsAtBarrier(s: State)
    requires Reachable(s) && s.heap == multiset{}
    ensures var z := Reap(s);
            && Distinct(Kills(z.log))
            && (forall t :: t in Kills(z.log) <==> t in s.dead && !s.Waiting(t))
            && (forall t :: t in z.toDie <==> t in s.dead && s.Waiting(t))
            && (forall t :: t in z.threads <==> t in s.threads && (t !in s.dead || s.Waiting(t)))
  {
    ReachableInv(s);
    ReapKeeps(s);
    var z := Reap(s);
    assert forall t :: z.Waiting(t) <==> s.Waiting(t);
    forall t | t in s.dead && !s.Waiting(t) ensures t in Kills(z.log) {
      assert t in z.threads ==> t in z.toDie;
    }
    ReapTable(s, s.toDie, []);
  }

  // A barrier removes only dead threads from the table.
  lemma {:induction false} ReapTable(s: State, todo: seq<Tid>, kept: seq<Tid>)
    ensures forall t :: t in s.threads && t !in todo ==> t in ReapEach(s, todo, kept).threads
    ensures ReapEach(s, todo, kept).threads <= s.threads
    decreases |todo|
  {
    if todo != [] {
      if todo[0] in s.sleepers {
        ReapTable(s, todo[1..], kept + [todo[0]]);
      } else {
        ReapTable(ReapOne(s, todo[0]), todo[1..], kept);
      }
    }
  }

  // It changes neither what was read nor the heap.
  lemma ReapKeepsInputs(m: State)
    ensures Reap(m).prog == m.prog && Reap(m).dead == m.dead && Reap(m).heap == m.heap
  {
    ReapEachKeepsInputs(m, m.toDie, []);
  }

  lemma {:induction false} ReapEachKeepsInputs(m: State, todo: seq<Tid>, kept: seq<Tid>)
    ensures var z := ReapEach(m, todo, kept); z.prog == m.prog && z.dead == m.dead && z.heap == m.heap
    decreases |todo|
  {
    if todo != [] {
      if todo[0] in m.sleepers {
        ReapEachKeepsInputs(m, todo[1..], kept + [todo[0]]);
      } else {
        ReapEachKeepsInputs(ReapOne(m, todo[0]), todo[1..], kept);
      }
    }
  }

  // Nothing is heard of a thread after it was killed, and it is not killed again.
  lemma {:induction false} KilledIsSilent(s: State, ops: seq<Op>, z: State, t: Tid)
    requires Inv(s) && Run(s, ops, z) && t in Kills(s.log)
    ensures t in Kills(z.log) && t in z.prog && z.prog[t] == s.prog[t]
    ensures Count(z.sched, t) == Count(s.sched, t) == |s.prog[t]|
    decreases |ops|
  {
    LegalStaysInProgram(s.prog, s.sched, t);
    if ops != [] {
      var m := Exec(s, ops[0]);
      ExecKeeps(s, ops[0]);
      KilledStays(s, ops[0], t);
      KilledIsSilent(m, ops[1..], z, t);
    }
  }

  lemma KilledStaysInStep(s: State, e: Entry, t: Tid)
    requires Inv(s) && e in s.heap && t in Kills(s.log)
    ensures t in Kills(Step(s, e).log) && Count(Step(s, e).sched, t) == Count(s.sched, t)
  {
    assert e.tid != t;
    StepEffect(s, e);
    if !Blocked(s, e.tid) {
      CountSnoc(s.sched, e.tid, t);
      AdvanceKeepsLog(s, e);
    }
  }

  lemma KilledStays(s: State, op: Op, t: Tid)
    requires Inv(s) && Enabled(s, op) && t in Kills(s.log)
    ensures var m := Exec(s, op);
            t in Kills(m.log) && t in m.prog && m.prog[t] == s.prog[t] && Count(m.sched, t) == Count(s.sched, t)
  {
    match op
    case OpArrive(u, evs) =>
    case OpDie(u) =>
    case OpPick(e) =>
      KilledStaysInStep(s, e, t);
      StepEffect(s, e);
    case OpReap =>
      ReapKeeps(s);
      ReapTable(s, s.toDie, []);
  }

  // ---------- Two assertions of the source that do not always hold ----------

  // At the end of a round every doomed thread is expected to be drained.  It is, unless it sleeps.
  lemma DrainedUnlessAsleep(s: State)
    requires Reachable(s) && s.heap == multiset{}
    ensures (forall t :: t in s.toDie ==> !s.Waiting(t)) <==> (forall t :: t in s.toDie ==> t !in s.sleepers)
  {
    ReachableInv(s);
  }

  // The first doomed thread that the end of the round kills itself.
  function FirstKill(s: State, todo: seq<Tid>): Option<Tid> {
    if todo == [] then None
    else if todo[0] in s.sleepers || todo[0] in s.signalled then FirstKill(s, todo[1..])
    else Some(todo[0])
  }

  lemma {:induction false} ReapEachSwitches(s: State, todo: seq<Tid>, kept: seq<Tid>)
    requires INVALID_THREAD !in todo
    ensures Crisp(ReapEach(s, todo, kept).log) <==> Crisp(s.log) && FirstKill(s, todo) != Some(Current(s.log))
    decreases |todo|
  {
    if todo != [] {
      if todo[0] in s.sleepers {
        ReapEachSwitches(s, todo[1..], kept + [todo[0]]);
      } else {
        var z := ReapOne(s, todo[0]);
        ReapOneLog(s, todo[0]);
        ReapEachSwitches(z, todo[1..], kept);
        SameFirstKill(s, z, todo[1..]);
        FirstKillIsDoomed(s, todo[1..]);
      }
    }
  }

  lemma {:induction false} SameFirstKill(s: State, z: State, todo: seq<Tid>)
    requires s.sleepers == z.sleepers && s.signalled == z.signalled
    ensures FirstKill(s, todo) == FirstKill(z, todo)
  {
    if todo != [] {
      SameFirstKill(s, z, todo[1..]);
    }
  }

  lemma {:induction false} FirstKillIsDoomed(s: State, todo: seq<Tid>)
    ensures FirstKill(s, todo).Some? ==> FirstKill(s, todo).value in todo && FirstKill(s, todo).value !in s.signalled
  {
    if todo != [] {
      FirstKillIsDoomed(s, todo[1..]);
    }
  }

  // Replay asserts that a switch goes to another thread.  Only the end of a round can break that,
  // and it does exactly when the first thread it kills is the one the receiver was last told of.
  lemma SwitchesAreCrisp(s: State, op: Op)
    requires Reachable(s) && Enabled(s, op)
    ensures Crisp(Exec(s, op).log) <==>
            Crisp(s.log) && (op.OpReap? ==> FirstKill(s, s.toDie) != Some(s.recvThread))
  {
    ReachableInv(s);
    match op
    case OpArrive(t, evs) =>
    case OpDie(t) =>
    case OpPick(e) => StepKeeps(s, e);
    case OpReap =>
      assert INVALID_THREAD !in s.toDie;
      ReapEachSwitches(s, s.toDie, []);
      FirstKillIsDoomed(s, s.toDie);
      LogSnoc(ReapEach(s, s.toDie, []).log, Barrier);
  }

  lemma InitReachable()
    ensures Reachable(Init())
  {
    assert Run(Init(), [], Init());
  }
}
