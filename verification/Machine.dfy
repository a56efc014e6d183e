/**
 The serializer as a state machine: threads with undelivered events are runnable (in the heap) or
 asleep (waiting for a token), and buffers, deaths and barriers arrive in between.
 */
module Machine {
  import opened Wrappers
  import opened Events
  import opened History
  import opened Calls

  // A thread in the heap, under the timestamp it had when it was pushed.
  datatype Entry = Entry(tid: Tid, key: int)

  datatype State = State(
    prog: Program,               // everything decoded so far, per thread
    sched: seq<Tid>,             // whose event was delivered, in order
    live: set<Token>,              // the tokens the receiver holds
    threads: set<Tid>,           // the thread table
    dead: set<Tid>,              // threads whose death was seen
    signalled: set<Tid>,         // dead threads killed by the drain loop
    sleepers: set<Tid>,          // threads with the in_pending_frees flag
    heap: multiset<Entry>,
    pendingFrees: map<Token, Tid>, // awaited token to waiting thread
    toDie: seq<Tid>,
    recvThread: Tid, recvTs: int, recvCpu: int,
    log: seq<Call>)
  {
    predicate Waiting(t: Tid) {
      HasNext(prog, sched, t)
    }

    function Head(t: Tid): Timed
      requires Waiting(t)
    {
      Next(prog, sched, t)
    }
  }

  function Init(): State {
    State(map[], [], {}, {}, {}, {}, {}, multiset{}, map[], [], INVALID_THREAD, 0, 0, [])
  }

  // ---------- The operations ----------

  function Extend(p: Program, t: Tid, evs: seq<Timed>): Program {
    p[t := (if t in p then p[t] else []) + evs]
  }

  // A buffer with events evs arrives for thread t.
  function Arrive(s: State, t: Tid, evs: seq<Timed>): State {
    var idle := !s.Waiting(t);
    var s1 := s.(prog := Extend(s.prog, t, evs), threads := s.threads + {t});
    if idle && s1.Waiting(t) then s1.(heap := s1.heap + multiset{Entry(t, s1.Head(t).ts)}) else s1
  }

  function Die(s: State, t: Tid): State {
    s.(dead := s.dead + {t}, toDie := s.toDie + [t])
  }

  function SwitchCalls(s: State, t: Tid): seq<Call> {
    if t != s.recvThread then [SwitchThread(t)] else []
  }

  function ClockCalls(s: State, ts: int, cpu: int): seq<Call> {
    if ts != s.recvTs || cpu != s.recvCpu then [SetTS(ts, cpu)] else []
  }

  // The head event of thread t is handed to the receiver.
  function Emit(s: State, t: Tid): State
    requires s.Waiting(t)
  {
    var n := s.Head(t);
    s.(sched := s.sched + [t],
       live := s.live - ToSet(n.ev.Takes()) + ToSet(n.ev.Gives()),
       recvThread := t, recvTs := n.ts, recvCpu := n.cpu,
       log := s.log + SwitchCalls(s, t) + ClockCalls(s, n.ts, n.cpu) + [Do(n.ev)])
  }

  // The thread of entry e, which is at the top of the heap, has moved on to its next event.
  function Requeue(s: State, e: Entry, lastTs: int): State {
    var t := e.tid;
    if !s.Waiting(t) then
      var s1 := if t in s.dead then s.(log := s.log + [KillCurrentThread], signalled := s.signalled + {t}) else s;
      s1.(heap := s.heap - multiset{e})
    else if s.Head(t).ts != lastTs then
      s.(heap := s.heap - multiset{e} + multiset{Entry(t, s.Head(t).ts)})
    else s
  }

  function Sleep(s: State, e: Entry, token: Token): State {
    s.(heap := s.heap - multiset{e}, sleepers := s.sleepers + {e.tid}, pendingFrees := s.pendingFrees[token := e.tid])
  }

  function LastTs(s: State, t: Tid): int {
    if s.Waiting(t) then s.Head(t).ts else 0
  }

  // A token was allocated: wake the thread that waits for it, if there is one.
  function Wake(s: State, token: Token): State {
    if token !in s.pendingFrees then s
    else
      var t := s.pendingFrees[token];
      s.(heap := s.heap + multiset{Entry(t, LastTs(s, t))}, sleepers := s.sleepers - {t},
         pendingFrees := s.pendingFrees - {token})
  }

  predicate Blocked(s: State, t: Tid)
    requires s.Waiting(t)
  {
    var takes := s.Head(t).ev.Takes();
    takes.Some? && takes.value !in s.live
  }

  // The thread of entry e has its head event delivered.
  function Advance(s: State, e: Entry): State
    requires s.Waiting(e.tid)
  {
    Requeue(Emit(s, e.tid), e, s.Head(e.tid).ts)
  }

  // One turn of the drain loop, with entry e at the top of the heap.
  function Step(s: State, e: Entry): State
    requires s.Waiting(e.tid)
  {
    var ev := s.Head(e.tid).ev;
    if Blocked(s, e.tid) then Sleep(s, e, ev.Takes().value)
    else if ev.Gives().Some? && ev.Gives().value != EMPTY_TOKEN then Wake(Advance(s, e), ev.Gives().value)
    else Advance(s, e)
  }

  function ReapOne(s: State, t: Tid): State {
    var s1 := if t in s.signalled then s
              else s.(log := s.log + [SwitchThread(t), KillCurrentThread], recvThread := INVALID_THREAD);
    s1.(threads := s1.threads - {t})
  }

  function ReapEach(s: State, todo: seq<Tid>, kept: seq<Tid>): State
    decreases |todo|
  {
    if todo == [] then s.(toDie := kept)
    else if todo[0] in s.sleepers then ReapEach(s, todo[1..], kept + [todo[0]])
    else ReapEach(ReapOne(s, todo[0]), todo[1..], kept)
  }

  // The end of a round: forget the dead threads that are drained, then tell the receiver.
  function Reap(s: State): State {
    var s1 := ReapEach(s, s.toDie, []);
    s1.(log := s1.log + [Barrier])
  }

  // ---------- Runs ----------

  datatype Op =
    | OpArrive(t: Tid, evs: seq<Timed>)
    | OpDie(t: Tid)
    | OpPick(e: Entry)
    | OpReap

  predicate Least(heap: multiset<Entry>, e: Entry) {
    e in heap && forall f :: f in heap ==> e.key <= f.key
  }

  // When an operation may happen.  For an arrival and a death this is what is assumed of traces.
  ghost predicate Enabled(s: State, op: Op) {
    match op
    case OpArrive(t, evs) => t !in s.dead && WellFormed(Extend(s.prog, t, evs))
    case OpDie(t) => t in s.prog && t !in s.dead
    case OpPick(e) => Least(s.heap, e) && s.Waiting(e.tid)
    case OpReap => s.heap == multiset{}
  }

  function Exec(s: State, op: Op): State
    requires op.OpPick? ==> s.Waiting(op.e.tid)
  {
    match op
    case OpArrive(t, evs) => Arrive(s, t, evs)
    case OpDie(t) => Die(s, t)
    case OpPick(e) => Step(s, e)
    case OpReap => Reap(s)
  }

  // The operations ops lead from s to z.
  ghost predicate Run(s: State, ops: seq<Op>, z: State)
    decreases |ops|
  {
    if ops == [] then s == z
    else Enabled(s, ops[0]) && Run(Exec(s, ops[0]), ops[1..], z)
  }

  // ---------- The invariant ----------

  ghost predicate HistoryOK(s: State) {
    WellFormed(s.prog) && Legal(s.prog, s.sched) && s.live == Live(s.prog, s.sched)
  }

  // The table holds every thread that may still do something; only dead threads leave it.
  ghost predicate TableOK(s: State) {
    && s.threads <= s.prog.Keys
    && s.dead <= s.prog.Keys
    && s.prog.Keys - s.threads <= s.dead
    && forall t :: s.Waiting(t) ==> t in s.threads
  }

  // The heap holds a thread at most once, with an event to deliver, under its current timestamp.
  ghost predicate HeapOK(s: State) {
    forall e :: e in s.heap ==>
      && s.heap[e] == 1
      && s.Waiting(e.tid) && e.key == s.Head(e.tid).ts
      && e.tid !in s.sleepers
  }

  // Every sleeper waits under exactly the token its head event takes.
  ghost predicate WaitsOK(s: State) {
    && (forall k :: k in s.pendingFrees ==>
      var t := s.pendingFrees[k];
      t in s.sleepers && s.Waiting(t) && s.Head(t).ev.Takes() == Some(k))
    && (forall t :: t in s.sleepers ==>
      && s.Waiting(t) && s.Head(t).ev.Takes().Some?
      && s.Head(t).ev.Takes().value in s.pendingFrees
      && s.pendingFrees[s.Head(t).ev.Takes().value] == t)
  }

  // No thread sleeps on a token that is alive.
  ghost predicate NoneOverslept(s: State) {
    forall k :: k in s.pendingFrees ==> k !in s.live
  }

  // A thread with an event to deliver is in the heap or asleep.
  ghost predicate NoneLost(s: State) {
    forall t :: s.Waiting(t) ==> t in s.sleepers || Entry(t, s.Head(t).ts) in s.heap
  }

  ghost predicate Distinct(ts: seq<Tid>) {
    forall i, j :: 0 <= i < j < |ts| ==> ts[i] != ts[j]
  }

  // doomed lists the dead threads of the table; a thread is signalled only when it is done.
  ghost predicate DeathOK(s: State, doomed: seq<Tid>) {
    && Distinct(doomed)
    && (forall t :: t in doomed <==> t in s.threads && t in s.dead)
    && s.signalled <= s.dead
    && (forall t :: t in s.signalled ==> !s.Waiting(t))
  }

  // The receiver knows whose event it hears, and when it happened.
  ghost predicate LogOK(s: State) {
    && Heard(s.log) == Told(s.prog, s.sched)
    && Clock(s.log) == (s.recvTs, s.recvCpu)
    && (Current(s.log) == s.recvThread || (s.recvThread in s.signalled && Current(s.log) == INVALID_THREAD))
  }

  // Killed once: the signalled threads and the ones that left the table.
  ghost predicate KillsOK(s: State) {
    && Distinct(Kills(s.log))
    && forall t :: t in Kills(s.log) <==> t in s.signalled || (t in s.dead && t !in s.threads)
  }

  ghost predicate Inv(s: State) {
    && HistoryOK(s) && TableOK(s)
    && HeapOK(s) && WaitsOK(s) && NoneOverslept(s) && NoneLost(s)
    && DeathOK(s, s.toDie) && LogOK(s) && KillsOK(s)
  }
}
