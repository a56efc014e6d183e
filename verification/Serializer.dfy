/** The serializer as a program: the state machine over real thread objects and a real receiver. */
module Serializers {
  import opened Wrappers
  import opened Words
  import opened Events
  import opened History
  import opened Calls
  import opened Machine
  import opened MachineInvariant
  import opened MachineTheorems
  import opened LinkedLogs
  import opened Varint
  import opened TraceCodec
  import opened ThreadCodec
  import opened ThreadStates
  import opened MemStreams
  import Receiver
  import Replay

  // What the state machine says of one thread.
  datatype View = View(pending: seq<Timed>, dead: bool, signalled: bool, sleeping: bool)

  ghost function ViewOf(m: State, t: Tid): View {
    View(if t in m.prog && Count(m.sched, t) <= |m.prog[t]| then m.prog[t][Count(m.sched, t)..] else [],
         t in m.dead, t in m.signalled, t in m.sleepers)
  }

  // From m to z, nothing changes about the threads, except that thread t is now as v says.
  ghost predicate Changed(m: State, z: State, t: Tid, v: View) {
    z.threads == m.threads && ViewOf(z, t) == v && forall u :: u != t ==> ViewOf(z, u) == ViewOf(m, u)
  }

  lemma SameThreadViews(s: State, m: State)
    requires m == s.(threads := m.threads)
    ensures forall t :: ViewOf(m, t) == ViewOf(s, t)
  {
  }

  lemma FlagsChange(m: State, z: State, t: Tid)
    requires z.prog == m.prog && z.sched == m.sched && z.threads == m.threads
    requires forall u :: u != t ==> (u in z.dead <==> u in m.dead)
    requires forall u :: u != t ==> (u in z.signalled <==> u in m.signalled)
    requires forall u :: u != t ==> (u in z.sleepers <==> u in m.sleepers)
    ensures Changed(m, z, t, View(ViewOf(m, t).pending, t in z.dead, t in z.signalled, t in z.sleepers))
  {
  }

  // The thread object is what the state machine says of thread t, with its decoder to end in d.
  ghost predicate Shows(thread: FullThreadState, t: Tid, v: View, d: DecState)
    reads thread, thread.activeStream
  {
    && thread.threadId == t && thread.Valid() && thread.Pending() == v.pending && thread.Final() == d
    && thread.dead == v.dead && thread.signalled == v.signalled && thread.inPendingFrees == v.sleeping
  }

  method SetSleeping(thread: FullThreadState, asleep: bool, ghost t: Tid, ghost v: View, ghost d: DecState)
    requires Shows(thread, t, v, d)
    modifies thread`inPendingFrees
    ensures Shows(thread, t, v.(sleeping := asleep), d)
  {
    thread.inPendingFrees := asleep;
  }

  method SetSignalled(thread: FullThreadState, ghost t: Tid, ghost v: View, ghost d: DecState)
    requires Shows(thread, t, v, d)
    modifies thread`signalled
    ensures Shows(thread, t, v.(signalled := true), d)
  {
    thread.signalled := true;
  }

  method SetDead(thread: FullThreadState, ghost t: Tid, ghost v: View, ghost d: DecState)
    requires Shows(thread, t, v, d)
    modifies thread`dead
    ensures Shows(thread, t, v.(dead := true), d)
  {
    thread.dead := true;
  }

  // The object of a thread with events to deliver has a stream and shows the first of them; that of
  // any other has neither a stream nor a buffer.
  lemma ShownHead(thread: FullThreadState, t: Tid, v: View, d: DecState)
    requires Shows(thread, t, v, d)
    ensures v.pending != [] <==> thread.activeStream != null
    ensures v.pending != [] ==> Timed(thread.lastEvent, thread.d.ts, thread.d.cpu) == v.pending[0]
    ensures v.pending == [] ==> thread.bufs == []
  {
  }

  // A thread is done with its head event.
  method NextEvent(thread: FullThreadState, ghost t: Tid, ghost v: View, ghost d: DecState, junk: seq<byte>)
    returns (ok: bool)
    requires Shows(thread, t, v, d) && v.pending != [] && |junk| == MAX_SIZE
    modifies thread, thread.activeStream
    ensures Shows(thread, t, v.(pending := v.pending[1..]), d)
    ensures ok <==> v.pending[1..] != []
    ensures ok ==> thread.d.ts == v.pending[1].ts
    ensures thread.activeStream == null || thread.activeStream == old(thread.activeStream) || fresh(thread.activeStream)
  {
    ok := thread.UpdateLastEvent(junk);
  }

  // A buffer arrives for a thread: its events are appended.
  method FeedBuffer(thread: FullThreadState, b: Buf, ghost t: Tid, ghost v: View, ghost d: DecState,
                    ghost evs: seq<Timed>, ghost end: DecState, junk: seq<byte>)
    returns (runnable: bool)
    requires Shows(thread, t, v, d) && DecodeBufs([b], d) == Some((evs, end)) && |junk| == MAX_SIZE
    modifies thread, thread.activeStream
    ensures Shows(thread, t, v.(pending := v.pending + evs), end)
    ensures runnable <==> v.pending == [] && evs != []
    ensures runnable ==> thread.d.ts == evs[0].ts
    ensures thread.activeStream == null || thread.activeStream == old(thread.activeStream) || fresh(thread.activeStream)
  {
    runnable := thread.AddBuffer(b, junk);
    if runnable {
      assert v.pending + evs == evs;
    }
  }

  // The proofs of the methods hide what they do not need: mostly what a thread object looks like inside,
  // and how the receiver comes to its state.
  class Serializer {
    const receiver: Receiver.SimpleReceiver
    var threads: map<Tid, FullThreadState>
    var heap: multiset<Entry>
    var toDie: seq<Tid>
    var pendingFrees: map<Token, Tid>
    var recvThreadId: Tid
    var recvTs: int
    var recvCpu: int
    ghost var repr: set<object>         // the thread objects and their streams
    ghost var decs: map<Tid, DecState>  // the decoder of each thread when its buffers are used up

    // The receiver has heard log, and was last told of this thread, time and cpu.
    ghost predicate Informed(log: seq<Call>, tid: Tid, ts: int, cpu: int)
      reads `recvThreadId, `recvTs, `recvCpu, receiver, receiver.idsSpace
    {
      && recvThreadId == tid && recvTs == ts && recvCpu == cpu
      && receiver.Valid() && receiver.View() == Receiver.HearAll(log)
    }

    ghost predicate ToldOf(m: State)
      reads `recvThreadId, `recvTs, `recvCpu, receiver, receiver.idsSpace
    {
      Informed(m.log, m.recvThread, m.recvTs, m.recvCpu)
    }

    ghost predicate Queues(m: State)
      reads `heap, `toDie, `pendingFrees
    {
      heap == m.heap && toDie == m.toDie && pendingFrees == m.pendingFrees
    }

    // Every thread of the table is what the state machine says it is.
    ghost predicate Table(m: State)
      reads `threads, `repr, `decs, repr
    {
      && (forall t :: t in threads <==> t in m.threads)
      && (forall t :: t in threads ==>
            && t in decs && threads[t] in repr && (threads[t].activeStream != null ==> threads[t].activeStream in repr)
            && Shows(threads[t], t, ViewOf(m, t), decs[t]))
    }

    // The program is in state s of the state machine, to which the operations ops have led.
    ghost predicate Valid(s: State, ops: seq<Op>)
      reads this, receiver, receiver.idsSpace, repr
    {
      && ToldOf(s) && Queues(s) && Table(s) && Run(Init(), ops, s)
      && receiver !in repr && receiver.idsSpace !in repr && this !in repr
    }

    constructor ()
      ensures Valid(Init(), []) && decs == map[]
      ensures fresh(receiver) && fresh(receiver.idsSpace) && fresh(repr)
    {
      receiver := new Receiver.SimpleReceiver();
      threads, heap, toDie, pendingFrees := map[], multiset{}, [], map[];
      recvThreadId, recvTs, recvCpu := INVALID_THREAD, 0, 0;
      repr, decs := {}, map[];
    }

    // Tells the receiver which thread is next, and its clock, where they differ from what it was
    // last told.
    method MaybeSwitchThread(thread: FullThreadState, ghost s: State)
      requires ToldOf(s) && Followed(s) && s.Waiting(thread.threadId)
      requires thread.d.ts == s.Head(thread.threadId).ts && thread.d.cpu == s.Head(thread.threadId).cpu
      modifies `recvThreadId, `recvTs, `recvCpu, receiver
      ensures Informed(Announced(s, thread.threadId), thread.threadId, thread.d.ts, thread.d.cpu)
    {
      hide Followed;
      hide Receiver.HearAll, Receiver.Orderly, Receiver.SimpleReceiver.Valid, Receiver.SimpleReceiver.View;
      AnnouncedFollows(s, thread.threadId);
      TellThread(thread.threadId, s.log);
      TellClock(thread.d.ts, thread.d.cpu, s.log + SwitchCalls(s, thread.threadId));
    }

    method TellThread(threadId: Tid, ghost log: seq<Call>)
      requires receiver.Valid() && receiver.View() == Receiver.HearAll(log)
      requires Receiver.Orderly(log + if threadId != recvThreadId then [Call.SwitchThread(threadId)] else [])
      modifies `recvThreadId, receiver
      ensures receiver.Valid() && recvThreadId == threadId
      ensures receiver.View() ==
              Receiver.HearAll(log + if threadId != old(recvThreadId) then [Call.SwitchThread(threadId)] else [])
    {
      assert log + [] == log;
      if threadId != recvThreadId {
        recvThreadId := threadId;
        Receiver.HearAllSnoc(log, Call.SwitchThread(threadId));
        receiver.SwitchThread(recvThreadId);
      }
    }

    method TellClock(ts: int, cpu: int, ghost log: seq<Call>)
      requires receiver.Valid() && receiver.View() == Receiver.HearAll(log)
      requires Receiver.Orderly(log + if ts != recvTs || cpu != recvCpu then [Call.SetTS(ts, cpu)] else [])
      modifies `recvTs, `recvCpu, receiver
      ensures receiver.Valid() && recvTs == ts && recvCpu == cpu
      ensures receiver.View() ==
              Receiver.HearAll(log + if ts != old(recvTs) || cpu != old(recvCpu) then [Call.SetTS(ts, cpu)] else [])
    {
      assert log + [] == log;
      if ts != recvTs || cpu != recvCpu {
        recvTs := ts;
        recvCpu := cpu;
        Receiver.HearAllSnoc(log, Call.SetTS(ts, cpu));
        receiver.SetTS(recvTs, recvCpu);
      }
    }

    // Hands an event to the receiver, which has heard log.
    method Hand(ghost log: seq<Call>, ev: Event)
      requires receiver.Valid() && receiver.View() == Receiver.HearAll(log)
      requires Receiver.Orderly(log + [Do(ev)])
      modifies receiver, receiver.idsSpace
      ensures receiver.Valid() && receiver.View() == Receiver.HearAll(log + [Do(ev)])
    {
      Receiver.HearAllSnoc(log, Do(ev));
      Receiver.HearAllKeeps(log);
      match ev {
        case Malloc(tok, size) => receiver.Malloc(tok, size);
        case Memalign(tok, size, align) => receiver.Memalign(tok, size, align);
        case Free(tok) => receiver.Free(tok);
        case FreeSized(tok) => receiver.FreeSized(tok);
        case Realloc(oldTok, newTok, newSize) => receiver.Realloc(oldTok, newTok, newSize);
      }
    }

    // The receiver's table holds exactly the live tokens.
    lemma TableIsLive(s: State)
      requires ToldOf(s) && Followed(s)
      ensures forall k :: k in receiver.table <==> k in s.live
    {
      Receiver.HearAllKeeps(s.log);
      assert receiver.View().cells == receiver.table;
    }

    // Whether an event can be delivered now.
    predicate Deliverable(ev: Event)
      reads receiver`table
    {
      match ev
      case Malloc(_, _) => true
      case Memalign(_, _, _) => true
      case Free(tok) => receiver.HasAllocated(tok)
      case FreeSized(tok) => receiver.HasAllocated(tok)
      case Realloc(oldTok, _, _) => receiver.HasAllocated(oldTok)
    }

    lemma DeliverableIsUnblocked(ev: Event, s: State)
      requires ToldOf(s) && Followed(s)
      ensures Deliverable(ev) <==> (ev.Takes().Some? ==> ev.Takes().value in s.live)
    {
      TableIsLive(s);
    }

    // Delivers the head event of a thread.
    method Deliver(thread: FullThreadState, ghost s: State)
      requires ToldOf(s) && HistoryOK(s) && Followed(s)
      requires s.Waiting(thread.threadId) && !Blocked(s, thread.threadId)
      requires Timed(thread.lastEvent, thread.d.ts, thread.d.cpu) == s.Head(thread.threadId)
      modifies `recvThreadId, `recvTs, `recvCpu, receiver, receiver.idsSpace
      ensures ToldOf(Emit(s, thread.threadId))
    {
      EmitFollows(s, thread.threadId);
      MaybeSwitchThread(thread, s);
      Hand(Announced(s, thread.threadId), thread.lastEvent);
    }

    method Kill(ghost log: seq<Call>)
      requires receiver.Valid() && receiver.View() == Receiver.HearAll(log) && Receiver.Orderly(log)
      modifies receiver
      ensures receiver.Valid() && receiver.View() == Receiver.HearAll(log + [Call.KillCurrentThread])
    {
      QuietSnoc(log, Call.KillCurrentThread);
      Receiver.HearAllSnoc(log, Call.KillCurrentThread);
      receiver.KillCurrentThread();
    }

    // A thread that has to wait for a token leaves the heap.
    method GoToSleep(e: Entry, thread: FullThreadState, waitTok: Token, ghost s: State)
      requires this !in repr
      requires Queues(s) && Table(s) && e.tid in threads && threads[e.tid] == thread
      modifies `heap, `pendingFrees, thread`inPendingFrees
      ensures Queues(Sleep(s, e, waitTok)) && Table(Sleep(s, e, waitTok))
    {
      hide FullThreadState.Valid, FullThreadState.Pending, FullThreadState.Final;
      ghost var rest := repr - {thread, thread.activeStream};
      ghost var v := ViewOf(s, e.tid);
      FlagsChange(s, Sleep(s, e, waitTok), e.tid);
      TableWithout(e.tid, s, rest);
      heap := heap - multiset{e};
      SetSleeping(thread, true, e.tid, v, decs[e.tid]);
      pendingFrees := pendingFrees[waitTok := e.tid];
      TableWith(e.tid, s, Sleep(s, e, waitTok), v.(sleeping := true), decs, rest);
    }

    // The thread whose event was delivered reads its next one; z is the state after the delivery.
    method ReadOn(t: Tid, thread: FullThreadState, ghost s: State, ghost z: State, junk: seq<byte>) returns (ok: bool)
      requires this !in repr
      requires Table(s) && t in threads && threads[t] == thread && |junk| == MAX_SIZE
      requires Delivered(s, z, t)
      modifies `repr, thread, thread.activeStream
      ensures Table(z) && forall o :: o in repr ==> o in old(repr) || fresh(o)
      ensures ok <==> ViewOf(z, t).pending != []
      ensures ok ==> thread.d.ts == ViewOf(z, t).pending[0].ts
    {
      hide FullThreadState.Valid, FullThreadState.Pending, FullThreadState.Final;
      ghost var rest := repr - {thread, thread.activeStream};
      TableWithout(t, s, rest);
      ok := NextEvent(thread, t, ViewOf(s, t), decs[t], junk);
      assert Others(t, s, decs, rest);
      if thread.activeStream != null {
        repr := repr + {thread.activeStream};
      }
      TableWith(t, s, z, ViewOf(z, t), decs, rest);
    }

    // A dead thread without events is killed.
    method Signal(t: Tid, thread: FullThreadState, ghost m: State)
      requires this !in repr
      requires Table(m) && t in threads && threads[t] == thread
      requires receiver.Valid() && receiver.View() == Receiver.HearAll(m.log) && Receiver.Orderly(m.log)
      requires receiver !in repr
      modifies receiver, thread`signalled
      ensures receiver.Valid() && receiver.View() == Receiver.HearAll(m.log + [Call.KillCurrentThread])
      ensures Table(Signalled(m, t))
    {
      hide FullThreadState.Valid, FullThreadState.Pending, FullThreadState.Final;
      ghost var rest := repr - {thread, thread.activeStream};
      ghost var v := ViewOf(m, t).(signalled := true);
      FlagsChange(m, Signalled(m, t), t);
      TableWithout(t, m, rest);
      Kill(m.log);
      SetSignalled(thread, t, ViewOf(m, t), decs[t]);
      TableWith(t, m, Signalled(m, t), v, decs, rest);
    }

    // The thread leaves the heap if it has no event left, or takes its new place in it.
    method Requeue(e: Entry, thread: FullThreadState, lastTs: int, ok: bool, ghost m: State) returns (ghost z: State)
      requires this !in repr
      requires ToldOf(m) && Queues(m) && Table(m) && Receiver.Orderly(m.log) && receiver !in repr
      requires e.tid in threads && threads[e.tid] == thread && thread.dead == (e.tid in m.dead)
      modifies `heap, receiver, thread`signalled
      ensures ToldOf(z) && Queues(z) && Table(z)
      ensures z == (if !ok && e.tid in m.dead then Signalled(m, e.tid) else m).(heap := heap)
      ensures heap == Rekeyed(old(heap), e, lastTs, ok, thread.d.ts)
    {
      hide FullThreadState.Valid, FullThreadState.Pending, FullThreadState.Final;
      hide Rekeyed;
      hide Receiver.HearAll, Receiver.Orderly, Receiver.SimpleReceiver.Valid, Receiver.SimpleReceiver.View;
      z := m;
      if !ok {
        z := KillDrained(e.tid, thread, m);
      }
      Rekey(e, lastTs, ok, thread.d.ts);
      SameViews(z, z.(heap := heap));
      z := z.(heap := heap);
    }

    method Rekey(e: Entry, lastTs: int, ok: bool, ts: int)
      modifies `heap
      ensures heap == Rekeyed(old(heap), e, lastTs, ok, ts)
    {
      if !ok {
        heap := heap - multiset{e};
      } else if ts != lastTs {
        heap := heap - multiset{e};
        heap := heap + multiset{Entry(e.tid, ts)};
      }
    }

    // A thread without events is killed if it is dead.
    method KillDrained(t: Tid, thread: FullThreadState, ghost m: State) returns (ghost z: State)
      requires ToldOf(m) && Table(m) && Receiver.Orderly(m.log) && receiver !in repr && this !in repr
      requires t in threads && threads[t] == thread && thread.dead == (t in m.dead)
      modifies receiver, thread`signalled
      ensures ToldOf(z) && Table(z) && z == if t in m.dead then Signalled(m, t) else m
    {
      hide FullThreadState.Valid, FullThreadState.Pending, FullThreadState.Final;
      z := m;
      if thread.dead {
        Signal(t, thread, m);
        z := Signalled(m, t);
      }
    }

    // The heap, the sleeping queue and the log are not part of the table.
    lemma SameViews(m: State, z: State)
      requires Table(m)
      requires z.prog == m.prog && z.sched == m.sched && z.threads == m.threads
      requires z.dead == m.dead && z.signalled == m.signalled && z.sleepers == m.sleepers
      ensures Table(z)
    {
      hide FullThreadState.Valid, FullThreadState.Pending, FullThreadState.Final;
      forall t | t in threads ensures Shows(threads[t], t, ViewOf(z, t), decs[t]) {
        assert ViewOf(z, t) == ViewOf(m, t);
        assert Shows(threads[t], t, ViewOf(m, t), decs[t]);
      }
    }

    // The thread that waits for a token, if any.
    ghost function Woken(tok: Token): set<FullThreadState>
      reads `pendingFrees, `threads
    {
      if tok in pendingFrees && pendingFrees[tok] in threads then {threads[pendingFrees[tok]]} else {}
    }

    // A token was allocated: wakes the thread that waits for it.
    method AddAllocated(tok: Token, ghost m: State)
      requires this !in repr
      requires Queues(m) && Table(m)
      requires tok in pendingFrees ==> pendingFrees[tok] in threads && m.Waiting(pendingFrees[tok])
      modifies `heap, `pendingFrees, Woken(tok)`inPendingFrees
      ensures Queues(Wake(m, tok)) && Table(Wake(m, tok))
    {
      hide FullThreadState.Valid, FullThreadState.Pending, FullThreadState.Final;
      if tok !in pendingFrees {
        return;
      }
      var t := pendingFrees[tok];
      WakeOne(t, threads[t], tok, m);
    }

    method WakeOne(t: Tid, thread: FullThreadState, tok: Token, ghost m: State)
      requires this !in repr
      requires Queues(m) && Table(m) && tok in pendingFrees && pendingFrees[tok] == t
      requires t in threads && threads[t] == thread && m.Waiting(t)
      modifies `heap, `pendingFrees, thread`inPendingFrees
      ensures Queues(Wake(m, tok)) && Table(Wake(m, tok))
    {
      hide FullThreadState.Valid, FullThreadState.Pending, FullThreadState.Final;
      ghost var rest := repr - {thread, thread.activeStream};
      TableWithout(t, m, rest);
      ShownHead(thread, t, ViewOf(m, t), decs[t]);
      assert thread.d.ts == m.Head(t).ts;
      heap := heap + multiset{Entry(t, thread.d.ts)};
      SetSleeping(thread, false, t, ViewOf(m, t), decs[t]);
      pendingFrees := pendingFrees - {tok};
      ghost var z := m.(heap := heap, sleepers := m.sleepers - {t}, pendingFrees := pendingFrees);
      assert z == Wake(m, tok);
      FlagsChange(m, z, t);
      TableWith(t, m, z, ViewOf(m, t).(sleeping := false), decs, rest);
    }

    // The thread whose event was delivered moves on; m is the state after the delivery.
    method MoveOn(e: Entry, thread: FullThreadState, lastTs: int, ghost s: State, ghost m: State, junk: seq<byte>)
      requires ToldOf(m) && Queues(m) && Table(s) && Receiver.Orderly(m.log)
      requires receiver !in repr && receiver.idsSpace !in repr && this !in repr && |junk| == MAX_SIZE
      requires e.tid in threads && threads[e.tid] == thread && thread.dead == (e.tid in m.dead)
      requires Delivered(s, m, e.tid)
      modifies `heap, `repr, receiver, thread, thread.activeStream
      ensures ToldOf(Machine.Requeue(m, e, lastTs))
      ensures Queues(Machine.Requeue(m, e, lastTs)) && Table(Machine.Requeue(m, e, lastTs))
      ensures forall o :: o in repr ==> o in old(repr) || fresh(o)
    {
      hide FullThreadState.Valid, FullThreadState.Pending, FullThreadState.Final;
      hide ViewOf, Rekeyed, Machine.Requeue, Signalled;
      hide Receiver.HearAll, Receiver.Orderly, Receiver.SimpleReceiver.Valid, Receiver.SimpleReceiver.View;
      WaitingIsPending(m, e.tid);
      var ok := ReadOn(e.tid, thread, s, m, junk);
      ghost var z := Requeue(e, thread, lastTs, ok, m);
      RequeueParts(m, e, lastTs, ok, thread.d.ts, heap, z);
    }

    // Delivers the head event of the thread at the top of the heap, and moves the thread on.
    method Advance(e: Entry, thread: FullThreadState, ghost s: State, junk: seq<byte>)
      requires ToldOf(s) && Queues(s) && Table(s)
      requires receiver !in repr && receiver.idsSpace !in repr && this !in repr && |junk| == MAX_SIZE
      requires HistoryOK(s) && Followed(s)
      requires e.tid in threads && threads[e.tid] == thread && s.Waiting(e.tid) && !Blocked(s, e.tid)
      modifies `recvThreadId, `recvTs, `recvCpu, `heap, `repr, receiver, receiver.idsSpace, thread, thread.activeStream
      ensures ToldOf(Machine.Advance(s, e)) && Queues(Machine.Advance(s, e)) && Table(Machine.Advance(s, e))
      ensures forall o :: o in repr ==> o in old(repr) || fresh(o)
    {
      hide FullThreadState.Valid, FullThreadState.Pending, FullThreadState.Final;
      hide Machine.Requeue, Machine.Emit;
      hide Receiver.HearAll, Receiver.Orderly, Receiver.SimpleReceiver.Valid, Receiver.SimpleReceiver.View;
      var lastTs := thread.d.ts;
      HeadShown(e.tid, thread, s);
      EmitDelivers(s, e.tid);
      Deliver(thread, s);
      MoveOn(e, thread, lastTs, s, Emit(s, e.tid), junk);
    }

    // The object of a thread with something to deliver shows its head event.
    lemma HeadShown(t: Tid, thread: FullThreadState, s: State)
      requires Table(s) && t in threads && threads[t] == thread && s.Waiting(t)
      ensures thread.Valid() && thread.Pending() != [] && thread.activeStream != null
      ensures Timed(thread.lastEvent, thread.d.ts, thread.d.cpu) == s.Head(t)
      ensures thread.threadId == t && thread.dead == (t in s.dead) && thread in repr && thread.activeStream in repr
    {
      hide FullThreadState.Valid, FullThreadState.Pending, FullThreadState.Final;
      ShownHead(thread, t, ViewOf(s, t), decs[t]);
      WaitingIsPending(s, t);
    }

    // What one turn of the drain loop does to the thread at the top of the heap.
    method Turn(e: Entry, thread: FullThreadState, ghost s: State, junk: seq<byte>)
      requires ToldOf(s) && Queues(s) && Table(s)
      requires receiver !in repr && receiver.idsSpace !in repr && this !in repr && |junk| == MAX_SIZE
      requires HistoryOK(s) && Followed(s) && s.Waiting(e.tid)
      requires e.tid in threads && threads[e.tid] == thread
      requires !Blocked(s, e.tid) ==> WakesKnown(Machine.Advance(s, e))
      modifies `recvThreadId, `recvTs, `recvCpu, `heap, `pendingFrees, `repr, receiver, receiver.idsSpace, repr
      ensures ToldOf(Step(s, e)) && Queues(Step(s, e)) && Table(Step(s, e))
      ensures forall o :: o in repr ==> o in old(repr) || fresh(o)
    {
      hide FullThreadState.Valid, FullThreadState.Pending, FullThreadState.Final;
      hide Step, HistoryOK, Followed;
      hide ViewOf, Machine.Advance;
      hide Receiver.HearAll, Receiver.Orderly, Receiver.SimpleReceiver.Valid, Receiver.SimpleReceiver.View;
      HeadShown(e.tid, thread, s);
      DeliverableIsUnblocked(thread.lastEvent, s);
      if Deliverable(thread.lastEvent) {
        var newTok := NewToken(thread.lastEvent);
        Advance(e, thread, s, junk);
        WakeFor(e, newTok, s);
      } else {
        SleepFor(e, thread, thread.lastEvent.Takes().value, s);
      }
    }

    method SleepFor(e: Entry, thread: FullThreadState, waitTok: Token, ghost s: State)
      requires this !in repr
      requires ToldOf(s) && Queues(s) && Table(s) && e.tid in threads && threads[e.tid] == thread
      requires thread in repr && receiver !in repr && receiver.idsSpace !in repr
      requires s.Waiting(e.tid) && Blocked(s, e.tid) && s.Head(e.tid).ev.Takes() == Some(waitTok)
      modifies `heap, `pendingFrees, thread`inPendingFrees
      ensures ToldOf(Step(s, e)) && Queues(Step(s, e)) && Table(Step(s, e))
    {
      hide FullThreadState.Valid, FullThreadState.Pending, FullThreadState.Final;
      hide Receiver.HearAll, Receiver.Orderly, Receiver.SimpleReceiver.Valid, Receiver.SimpleReceiver.View;
      assert Step(s, e) == Sleep(s, e, waitTok);
      GoToSleep(e, thread, waitTok, s);
    }

    // Once nobody takes the thread to be at the top of the heap any more, the token it gave may
    // wake another one.
    method WakeFor(e: Entry, newTok: Token, ghost s: State)
      requires this !in repr
      requires s.Waiting(e.tid) && !Blocked(s, e.tid)
      requires ToldOf(Machine.Advance(s, e)) && Queues(Machine.Advance(s, e)) && Table(Machine.Advance(s, e))
      requires newTok == NewToken(s.Head(e.tid).ev)
      requires WakesKnown(Machine.Advance(s, e))
      requires receiver !in repr && receiver.idsSpace !in repr
      modifies `heap, `pendingFrees, Woken(newTok)`inPendingFrees
      ensures ToldOf(Step(s, e)) && Queues(Step(s, e)) && Table(Step(s, e))
    {
      hide FullThreadState.Valid, FullThreadState.Pending, FullThreadState.Final;
      hide Receiver.HearAll, Receiver.Orderly, Receiver.SimpleReceiver.Valid, Receiver.SimpleReceiver.View;
      if newTok != EMPTY_TOKEN {
        AddAllocated(newTok, Machine.Advance(s, e));
      }
    }

    // One turn of the drain loop.
    method DrainOne(ghost s: State, ghost ops: seq<Op>, junk: seq<byte>) returns (ghost e: Entry)
      requires Valid(s, ops) && heap != multiset{} && |junk| == MAX_SIZE
      modifies this, receiver, receiver.idsSpace, repr
      ensures Least(s.heap, e) && s.Waiting(e.tid) && Valid(Step(s, e), ops + [OpPick(e)])
      ensures decs == old(decs) && forall o :: o in repr ==> o in old(repr) || fresh(o)
    {
      hide FullThreadState.Valid, FullThreadState.Pending, FullThreadState.Final;
      hide Run, Step, HistoryOK, Followed, WakesKnown, Blocked;
      hide Receiver.HearAll, Receiver.Orderly, Receiver.SimpleReceiver.Valid, Receiver.SimpleReceiver.View;
      LeastExists(heap);
      var top :| top in heap && Least(heap, top); // which of several does not matter
      e := top;
      TopIsReady(ops, s, e);
      TopRuns(ops, s, e);
      Turn(top, threads[top.tid], s, junk);
    }

    // The drain loop: it ends with an empty heap.  Nothing was read meanwhile.
    method Drain(ghost s: State, ghost ops: seq<Op>, junk: seq<byte>) returns (ghost z: State, ghost done: seq<Op>)
      requires Valid(s, ops) && |junk| == MAX_SIZE
      modifies this, receiver, receiver.idsSpace, repr
      ensures Valid(z, done) && z.heap == heap == multiset{} && ops <= done && Inputs(done) == Inputs(ops)
      ensures z.prog == s.prog && z.dead == s.dead
      ensures decs == old(decs) && forall o :: o in repr ==> o in old(repr) || fresh(o)
    {
      hide FullThreadState.Valid, FullThreadState.Pending, FullThreadState.Final;
      hide Run;
      hide Receiver.HearAll, Receiver.Orderly, Receiver.SimpleReceiver.Valid, Receiver.SimpleReceiver.View;
      z, done := s, ops;
      while heap != multiset{}
        invariant Valid(z, done) && ops <= done && Inputs(done) == Inputs(ops)
        invariant z.prog == s.prog && z.dead == s.dead
        invariant decs == old(decs) && forall o :: o in repr ==> o in old(repr) || fresh(o)
        decreases Undelivered(z), |heap|
      {
        ghost var e := DrainOne(z, done, junk);
        DrainEnds(z, e);
        StepKeepsInputs(z, e);
        InputsSnoc(done, OpPick(e));
        z, done := Step(z, e), done + [OpPick(e)];
      }
    }

    // The object of a thread, made on its first mention; ts and cpu are what the clock of a new
    // object happens to hold.
    method FindThread(tid: Tid, ts: u64, cpu: u64, ghost s: State) returns (thread: FullThreadState)
      requires this !in repr
      requires Table(s) && Newcomer(s, tid)
      modifies `threads, `repr, `decs
      ensures tid in threads && threads[tid] == thread && Table(s.(threads := s.threads + {tid}))
      ensures decs == old(decs)[tid := old(DecoderOf(tid, ts, cpu))]
      ensures forall o :: o in repr ==> o in old(repr) || fresh(o)
    {
      hide FullThreadState.Valid, FullThreadState.Pending, FullThreadState.Final;
      hide ViewOf;
      ghost var m := s.(threads := s.threads + {tid});
      SameThreadViews(s, m);
      if tid in threads {
        thread := threads[tid];
        assert decs == decs[tid := decs[tid]];
      } else {
        thread := new FullThreadState(tid, ts, cpu);
        threads := threads[tid := thread];
        ghost var rest := repr;
        repr := repr + {thread};
        decs := decs[tid := DecState(0, 0, 0, ts, cpu)];
        assert Others(tid, m, decs, rest);
        assert Shows(thread, tid, ViewOf(m, tid), decs[tid]);
        TableWith(tid, m, m, ViewOf(m, tid), decs, rest);
      }
    }

    // The state of a thread's decoder when its buffers are used up.
    ghost function DecoderOf(tid: Tid, ts: u64, cpu: u64): DecState
      reads `threads, `decs
    {
      if tid in threads && tid in decs then decs[tid] else DecState(0, 0, 0, ts, cpu)
    }

    // A buffer arrives for a thread; evs are its events and end is its decoder afterwards.
    method Admit(t: Tid, thread: FullThreadState, b: Buf, ghost m: State, ghost z: State,
                 ghost evs: seq<Timed>, ghost end: DecState, ghost was: map<Tid, DecState>, junk: seq<byte>)
      returns (runnable: bool)
      requires this !in repr
      requires Table(m) && t in threads && threads[t] == thread && |junk| == MAX_SIZE
      requires t in decs && decs == was[t := decs[t]] && DecodeBufs([b], decs[t]) == Some((evs, end)) && Appended(m, z, t, evs)
      modifies `repr, `decs, thread, thread.activeStream
      ensures Table(z) && decs == was[t := end]
      ensures runnable <==> ViewOf(m, t).pending == [] && evs != []
      ensures runnable ==> thread.d.ts == evs[0].ts
      ensures forall o :: o in repr ==> o in old(repr) || fresh(o)
    {
      hide FullThreadState.Valid, FullThreadState.Pending, FullThreadState.Final;
      ghost var rest := repr - {thread, thread.activeStream};
      ghost var ds := decs;
      TableWithout(t, m, rest);
      runnable := FeedBuffer(thread, b, t, ViewOf(m, t), decs[t], evs, end, junk);
      assert Others(t, m, ds, rest);
      decs := was[t := end];
      if thread.activeStream != null {
        repr := repr + {thread.activeStream};
      }
      TableWith(t, m, z, ViewOf(z, t), ds, rest);
    }

    // A buffer record was read; evs are its events and end is the decoder afterwards.
    method HandleBuffer(tid: Tid, b: Buf, ts: u64, cpu: u64, ghost s: State, ghost ops: seq<Op>,
                        ghost evs: seq<Timed>, ghost end: DecState, junk: seq<byte>)
      requires Valid(s, ops) && |junk| == MAX_SIZE
      requires DecodeBufs([b], DecoderOf(tid, ts, cpu)) == Some((evs, end)) && Enabled(s, OpArrive(tid, evs))
      modifies `threads, `heap, `repr, `decs, repr
      ensures Valid(Arrive(s, tid, evs), ops + [OpArrive(tid, evs)])
      ensures decs == old(decs)[tid := end]
      ensures forall o :: o in repr ==> o in old(repr) || fresh(o)
    {
      hide FullThreadState.Valid, FullThreadState.Pending, FullThreadState.Final;
      hide Run, Arrive, Arrived;
      hide Receiver.HearAll, Receiver.Orderly, Receiver.SimpleReceiver.Valid, Receiver.SimpleReceiver.View;
      ArrivalRuns(ops, s, tid, evs);
      ArriveArrives(s, tid, evs);
      AcceptBuffer(tid, b, ts, cpu, s, Arrive(s, tid, evs), evs, end, junk);
    }

    method AcceptBuffer(tid: Tid, b: Buf, ts: u64, cpu: u64, ghost s: State, ghost z: State,
                      ghost evs: seq<Timed>, ghost end: DecState, junk: seq<byte>)
      requires this !in repr && receiver !in repr && receiver.idsSpace !in repr && |junk| == MAX_SIZE
      requires ToldOf(s) && Queues(s) && Table(s) && Newcomer(s, tid)
      requires DecodeBufs([b], DecoderOf(tid, ts, cpu)) == Some((evs, end)) && Arrived(s, z, tid, evs)
      modifies `threads, `heap, `repr, `decs, repr
      ensures ToldOf(z) && Queues(z) && Table(z) && decs == old(decs)[tid := end]
      ensures forall o :: o in repr ==> o in old(repr) || fresh(o)
    {
      hide FullThreadState.Valid, FullThreadState.Pending, FullThreadState.Final;
      hide ViewOf, Newcomer;
      hide Receiver.HearAll, Receiver.Orderly, Receiver.SimpleReceiver.Valid, Receiver.SimpleReceiver.View;
      ghost var was := decs;
      var thread := FindThread(tid, ts, cpu, s);
      assert ToldOf(s);
      QueueBuffer(tid, thread, b, s, z, evs, end, was, junk);
    }

    // The thread becomes runnable if it was idle.
    method QueueBuffer(t: Tid, thread: FullThreadState, b: Buf, ghost s: State, ghost z: State,
                       ghost evs: seq<Timed>, ghost end: DecState, ghost was: map<Tid, DecState>, junk: seq<byte>)
      requires this !in repr && t in threads && threads[t] == thread && |junk| == MAX_SIZE
      requires Queues(s) && Table(s.(threads := s.threads + {t})) && Arrived(s, z, t, evs)
      requires t in decs && decs == was[t := decs[t]] && DecodeBufs([b], decs[t]) == Some((evs, end))
      modifies `heap, `repr, `decs, thread, thread.activeStream
      ensures Queues(z) && Table(z) && decs == was[t := end]
      ensures forall o :: o in repr ==> o in old(repr) || fresh(o)
    {
      hide FullThreadState.Valid, FullThreadState.Pending, FullThreadState.Final;
      hide ViewOf, Arrived;
      ghost var m := s.(threads := s.threads + {t});
      SameThreadViews(s, m);
      assert Appended(m, z, t, evs) by {
        ArrivedAppends(s, z, t, evs);
      }
      var runnable := Admit(t, thread, b, m, z, evs, end, was, junk);
      if runnable {
        heap := heap + multiset{Entry(t, thread.d.ts)};
      }
      ArrivedQueues(s, z, t, evs, runnable, heap);
    }

    // A death record was read.
    method HandleDeath(tid: Tid, ghost s: State, ghost ops: seq<Op>)
      requires Valid(s, ops) && Enabled(s, OpDie(tid))
      modifies `toDie, repr
      ensures Valid(Die(s, tid), ops + [OpDie(tid)]) && repr == old(repr) && decs == old(decs)
    {
      hide FullThreadState.Valid, FullThreadState.Pending, FullThreadState.Final;
      hide Run;
      hide Receiver.HearAll, Receiver.Orderly, Receiver.SimpleReceiver.Valid, Receiver.SimpleReceiver.View;
      DeathRuns(ops, s, tid);
      MarkDead(tid, threads[tid], s);
      toDie := toDie + [tid];
    }

    method MarkDead(tid: Tid, thread: FullThreadState, ghost s: State)
      requires Table(s) && tid in threads && threads[tid] == thread && this !in repr
      modifies thread`dead
      ensures Table(Die(s, tid))
    {
      hide FullThreadState.Valid, FullThreadState.Pending, FullThreadState.Final;
      ghost var rest := repr - {thread, thread.activeStream};
      FlagsChange(s, Die(s, tid), tid);
      TableWithout(tid, s, rest);
      SetDead(thread, tid, ViewOf(s, tid), decs[tid]);
      TableWith(tid, s, Die(s, tid), ViewOf(s, tid).(dead := true), decs, rest);
    }

    // Forgets a dead thread that has nothing left to deliver; it is killed unless it was before.
    method Bury(t: Tid, thread: FullThreadState, ghost m: State)
      requires this !in repr
      requires ToldOf(m) && Queues(m) && Table(m) && Followed(m) && receiver !in repr
      requires t in threads && threads[t] == thread
      modifies `threads, `recvThreadId, receiver
      ensures ToldOf(ReapOne(m, t)) && Queues(ReapOne(m, t)) && Table(ReapOne(m, t))
    {
      hide FullThreadState.Valid, FullThreadState.Pending, FullThreadState.Final;
      hide Receiver.HearAll, Receiver.Orderly, Receiver.SimpleReceiver.Valid, Receiver.SimpleReceiver.View;
      assert Shows(thread, t, ViewOf(m, t), decs[t]);
      if !thread.signalled {
        Farewell(t, m.log);
        recvThreadId := INVALID_THREAD;
      }
      Erase(t, m, ReapOne(m, t));
    }

    method Erase(t: Tid, ghost m: State, ghost z: State)
      requires Table(m) && this !in repr
      requires z == m.(threads := m.threads - {t}, log := z.log, recvThread := z.recvThread)
      modifies `threads
      ensures Table(z)
    {
      hide FullThreadState.Valid, FullThreadState.Pending, FullThreadState.Final;
      threads := threads - {t};
      forall u | u in threads ensures Shows(threads[u], u, ViewOf(z, u), decs[u]) {
        assert ViewOf(z, u) == ViewOf(m, u);
        assert Shows(threads[u], u, ViewOf(m, u), decs[u]);
      }
    }

    // Kills a thread that need not be the current one.
    method Farewell(t: Tid, ghost log: seq<Call>)
      requires receiver.Valid() && receiver.View() == Receiver.HearAll(log) && Receiver.Orderly(log)
      modifies receiver
      ensures receiver.Valid()
      ensures receiver.View() == Receiver.HearAll(log + [Call.SwitchThread(t), Call.KillCurrentThread])
    {
      QuietSnoc(log, Call.SwitchThread(t));
      Receiver.HearAllSnoc(log, Call.SwitchThread(t));
      receiver.SwitchThread(t);
      Kill(log + [Call.SwitchThread(t)]);
      assert log + [Call.SwitchThread(t), Call.KillCurrentThread] == log + [Call.SwitchThread(t)] + [Call.KillCurrentThread];
    }

    // Buries the dead threads, except those asleep, which are kept for a later round.
    method BuryAll(ghost s: State) returns (nextToDie: seq<Tid>, ghost m: State)
      requires ToldOf(s) && Queues(s) && Table(s) && Burying(s, s, s.toDie, [])
      requires receiver !in repr && this !in repr
      modifies `threads, `recvThreadId, receiver
      ensures ToldOf(m) && Queues(m) && Table(m) && Burying(s, m, [], nextToDie)
    {
      hide FullThreadState.Valid, FullThreadState.Pending, FullThreadState.Final;
      hide Burying, ReapOne;
      hide Receiver.HearAll, Receiver.Orderly, Receiver.SimpleReceiver.Valid, Receiver.SimpleReceiver.View;
      nextToDie, m := [], s;
      for i := 0 to |toDie|
        invariant Burying(s, m, toDie[i..], nextToDie)
        invariant ToldOf(m) && Queues(m) && Table(m)
      {
        BuryingNext(s, m, toDie[i..], nextToDie);
        assert toDie[i..][1..] == toDie[i + 1..];
        var t := toDie[i];
        var thread := threads[t];
        assert Shows(thread, t, ViewOf(m, t), decs[t]);
        assert thread.dead;
        if thread.inPendingFrees {
          assert !thread.signalled;
          nextToDie := nextToDie + [t];
        } else {
          ShownHead(thread, t, ViewOf(m, t), decs[t]);
          assert thread.bufs == [] && thread.activeStream == null;
          Bury(t, thread, m);
          m := ReapOne(m, t);
        }
      }
      assert toDie[|toDie|..] == [];
    }

    // The end of a round.
    method EndRound(ghost s: State, ghost ops: seq<Op>) returns (ghost z: State)
      requires Valid(s, ops) && heap == multiset{}
      modifies `threads, `toDie, `recvThreadId, receiver
      ensures Valid(z, ops + [OpReap]) && z.prog == s.prog && z.dead == s.dead && z.heap == s.heap
    {
      hide FullThreadState.Valid, FullThreadState.Pending, FullThreadState.Final;
      hide Run, Reap, Burying;
      hide Receiver.HearAll, Receiver.Orderly, Receiver.SimpleReceiver.Valid, Receiver.SimpleReceiver.View;
      z := Reap(s);
      ReapStarts(ops, s);
      ReapKeepsInputs(s);
      var nextToDie;
      ghost var m;
      nextToDie, m := BuryAll(s);
      BuryingNext(s, m, [], nextToDie);
      RingBarrier(nextToDie, m, z);
    }

    method RingBarrier(nextToDie: seq<Tid>, ghost m: State, ghost z: State)
      requires ToldOf(m) && Queues(m) && Table(m) && Followed(m) && receiver !in repr && this !in repr
      requires z == m.(toDie := nextToDie, log := m.log + [Call.Barrier])
      modifies `toDie, receiver
      ensures ToldOf(z) && Queues(z) && Table(z)
    {
      hide FullThreadState.Valid, FullThreadState.Pending, FullThreadState.Final;
      hide Receiver.HearAll, Receiver.Orderly, Receiver.SimpleReceiver.Valid, Receiver.SimpleReceiver.View;
      SameViews(m, z);
      toDie := nextToDie;
      QuietSnoc(m.log, Call.Barrier);
      Receiver.HearAllSnoc(m.log, Call.Barrier);
      receiver.Barrier();
    }

    // Every thread but t is what the state machine says it is, with the decoders ds, and made of
    // objects of rest.
    ghost predicate Others(t: Tid, m: State, ds: map<Tid, DecState>, rest: set<object?>)
      reads `threads, rest
    {
      forall u :: u in threads && u != t ==>
        && u in ds && threads[u] in rest && (threads[u].activeStream != null ==> threads[u].activeStream in rest)
        && Shows(threads[u], u, ViewOf(m, u), ds[u])
    }

    lemma TableWithout(t: Tid, m: State, rest: set<object?>)
      requires Table(m) && t in threads && rest == repr - {threads[t], threads[t].activeStream}
      ensures Others(t, m, decs, rest) && t in decs && Shows(threads[t], t, ViewOf(m, t), decs[t])
    {
      assert Shows(threads[t], t, ViewOf(m, t), decs[t]);
      forall u | u in threads && u != t
        ensures threads[u] in rest && (threads[u].activeStream != null ==> threads[u].activeStream in rest)
      {
        assert Shows(threads[u], u, ViewOf(m, u), decs[u]);
      }
    }

    lemma TableWith(t: Tid, m: State, z: State, v: View, ds: map<Tid, DecState>, rest: set<object?>)
      requires (forall u :: u in threads <==> u in m.threads) && Changed(m, z, t, v)
      requires Others(t, m, ds, rest) && forall o :: o in rest ==> o in repr
      requires forall u :: u in ds && u != t ==> u in decs && decs[u] == ds[u]
      requires t in threads && t in decs && threads[t] in repr && (threads[t].activeStream != null ==> threads[t].activeStream in repr)
      requires Shows(threads[t], t, v, decs[t])
      ensures Table(z)
    {
      hide FullThreadState.Valid, FullThreadState.Pending, FullThreadState.Final;
    }
  }

  // Nothing is known of thread t yet, or it is in the table.
  ghost predicate Newcomer(s: State, t: Tid) {
    t !in s.threads ==> ViewOf(s, t) == View([], false, false, false)
  }

  // In z, thread t has events evs more to deliver than in m.
  ghost predicate Appended(m: State, z: State, t: Tid, evs: seq<Timed>) {
    Changed(m, z, t, ViewOf(m, t).(pending := ViewOf(m, t).pending + evs))
  }

  lemma ArrivalRuns(ops: seq<Op>, s: State, t: Tid, evs: seq<Timed>)
    requires Run(Init(), ops, s) && Enabled(s, OpArrive(t, evs))
    ensures Newcomer(s, t) && Legal(s.prog, s.sched)
    ensures Run(Init(), ops + [OpArrive(t, evs)], Arrive(s, t, evs))
  {
    assert Reachable(s);
    ReachableInv(s);
    RunSnoc(Init(), ops, s, OpArrive(t, evs));
  }

  lemma DeathRuns(ops: seq<Op>, s: State, t: Tid)
    requires Run(Init(), ops, s) && Enabled(s, OpDie(t))
    ensures t in s.threads && Run(Init(), ops + [OpDie(t)], Die(s, t))
  {
    assert Reachable(s);
    ReachableInv(s);
    RunSnoc(Init(), ops, s, OpDie(t));
  }

  // In the middle of the end of a round: s was its start, todo is to be looked at, kept was kept.
  ghost predicate Burying(s: State, m: State, todo: seq<Tid>, kept: seq<Tid>) {
    && Reaping(m, kept + todo) && Followed(m) && (forall t :: t in kept ==> t in m.sleepers)
    && ReapEach(m, todo, kept) == ReapEach(s, s.toDie, [])
    && m == s.(threads := m.threads, log := m.log, recvThread := m.recvThread)
  }

  lemma ReapStarts(ops: seq<Op>, s: State)
    requires Run(Init(), ops, s) && s.heap == multiset{}
    ensures Burying(s, s, s.toDie, []) && Run(Init(), ops + [OpReap], Reap(s))
  {
    assert Reachable(s);
    ReachableInv(s);
    ReachableFollowed(s);
    assert [] + s.toDie == s.toDie;
    RunSnoc(Init(), ops, s, OpReap);
  }

  // A doomed thread is in the table; it sleeps, or it has nothing left to deliver.
  lemma BuryingNext(s: State, m: State, todo: seq<Tid>, kept: seq<Tid>)
    requires Burying(s, m, todo, kept)
    ensures Followed(m)
    ensures todo == [] ==> Reap(s) == m.(toDie := kept, log := m.log + [Call.Barrier])
    ensures todo != [] ==> todo[0] in m.threads && todo[0] in m.dead
    ensures todo != [] && todo[0] in m.sleepers ==> todo[0] !in m.signalled && Burying(s, m, todo[1..], kept + [todo[0]])
    ensures todo != [] && todo[0] !in m.sleepers ==>
              ViewOf(m, todo[0]).pending == [] && Burying(s, ReapOne(m, todo[0]), todo[1..], kept)
  {
    if todo != [] {
      var t := todo[0];
      assert kept + [t] + todo[1..] == kept + todo;
      assert t in kept + todo;
      if t !in m.sleepers {
        ReapOneKeeps(m, t, kept, todo[1..]);
        ReapOneFollows(m, t);
        assert !m.Waiting(t);
      }
    }
  }

  // An arrival appends to what is pending for its thread.
  lemma ArriveViews(s: State, t: Tid, evs: seq<Timed>)
    requires Legal(s.prog, s.sched)
    ensures Appended(s.(threads := s.threads + {t}), Arrive(s, t, evs), t, evs)
  {
    LegalStaysInProgram(s.prog, s.sched, t);
    var before, after := if t in s.prog then s.prog[t] else [], Extend(s.prog, t, evs)[t];
    var n := Count(s.sched, t);
    assert after == before + evs && after[n..] == before[n..] + evs;
    var z := Arrive(s, t, evs);
    assert z == s.(prog := Extend(s.prog, t, evs), threads := s.threads + {t}, heap := z.heap);
  }

  // z is s after thread t got events evs; if it was idle, it has become runnable.
  ghost predicate Arrived(s: State, z: State, t: Tid, evs: seq<Timed>) {
    && Appended(s.(threads := s.threads + {t}), z, t, evs)
    && z == s.(prog := z.prog, threads := s.threads + {t}, heap :=
               if ViewOf(s, t).pending == [] && evs != [] then s.heap + multiset{Entry(t, evs[0].ts)} else s.heap)
  }

  lemma ArrivedQueues(s: State, z: State, t: Tid, evs: seq<Timed>, runnable: bool, heap: multiset<Entry>)
    requires Arrived(s, z, t, evs) && (runnable <==> ViewOf(s, t).pending == [] && evs != [])
    requires heap == if runnable then s.heap + multiset{Entry(t, evs[0].ts)} else s.heap
    ensures heap == z.heap && z.toDie == s.toDie && z.pendingFrees == s.pendingFrees
  {
  }

  lemma ArrivedAppends(s: State, z: State, t: Tid, evs: seq<Timed>)
    requires Arrived(s, z, t, evs)
    ensures Appended(s.(threads := s.threads + {t}), z, t, evs)
  {
  }

  lemma ArriveArrives(s: State, t: Tid, evs: seq<Timed>)
    requires Legal(s.prog, s.sched)
    ensures Arrived(s, Arrive(s, t, evs), t, evs)
  {
    LegalStaysInProgram(s.prog, s.sched, t);
    var z := Arrive(s, t, evs);
    assert Appended(s.(threads := s.threads + {t}), z, t, evs) by {
      ArriveViews(s, t, evs);
    }
    WaitingIsPending(s, t);
    WaitingIsPending(z, t);
  }

  // In m, thread t has one event less to deliver than in s, and the other threads have the same.
  ghost predicate Delivered(s: State, m: State, t: Tid) {
    && ViewOf(s, t).pending != [] && Changed(s, m, t, ViewOf(s, t).(pending := ViewOf(s, t).pending[1..]))
    && t in m.prog && Count(m.sched, t) <= |m.prog[t]|
  }

  lemma WaitingIsPending(m: State, t: Tid)
    requires t in m.prog ==> Count(m.sched, t) <= |m.prog[t]|
    ensures m.Waiting(t) <==> ViewOf(m, t).pending != []
    ensures m.Waiting(t) ==> m.Head(t) == ViewOf(m, t).pending[0]
  {
  }

  lemma EmitKeeps(s: State, t: Tid)
    requires s.Waiting(t)
    ensures var m := Emit(s, t);
            && m.prog == s.prog && m.sched == s.sched + [t] && m.threads == s.threads && m.dead == s.dead
            && m.signalled == s.signalled && m.sleepers == s.sleepers
            && m.heap == s.heap && m.toDie == s.toDie && m.pendingFrees == s.pendingFrees
  {
  }

  lemma OneMore(s: State, m: State, t: Tid)
    requires s.Waiting(t) && m.prog == s.prog && m.sched == s.sched + [t] && m.threads == s.threads
    requires m.dead == s.dead && m.signalled == s.signalled && m.sleepers == s.sleepers
    ensures Delivered(s, m, t) && ViewOf(s, t).pending[0] == s.Head(t)
  {
    forall u ensures Count(m.sched, u) == Count(s.sched, u) + if t == u then 1 else 0 {
      CountSnoc(s.sched, t, u);
    }
  }

  lemma EmitDelivers(s: State, t: Tid)
    requires HistoryOK(s) && Followed(s) && s.Waiting(t) && !Blocked(s, t)
    ensures var m := Emit(s, t);
            && Delivered(s, m, t) && m.dead == s.dead && Receiver.Orderly(m.log)
            && m.heap == s.heap && m.toDie == s.toDie && m.pendingFrees == s.pendingFrees
  {
    EmitKeeps(s, t);
    OneMore(s, Emit(s, t), t);
    EmitFollows(s, t);
  }

  ghost function Signalled(m: State, t: Tid): State {
    m.(signalled := m.signalled + {t}, log := m.log + [Call.KillCurrentThread])
  }

  // The heap when the thread of entry e has no event left, or has one at time ts.
  ghost function Rekeyed(heap: multiset<Entry>, e: Entry, lastTs: int, ok: bool, ts: int): multiset<Entry> {
    if !ok then heap - multiset{e}
    else if ts != lastTs then heap - multiset{e} + multiset{Entry(e.tid, ts)}
    else heap
  }

  // The cases of requeueing: only a dead thread without events is killed.
  lemma RequeueParts(m: State, e: Entry, lastTs: int, ok: bool, ts: int, heap: multiset<Entry>, z: State)
    requires (ok <==> m.Waiting(e.tid)) && (ok ==> ts == m.Head(e.tid).ts)
    requires z == (if !ok && e.tid in m.dead then Signalled(m, e.tid) else m).(heap := heap)
    requires heap == Rekeyed(m.heap, e, lastTs, ok, ts)
    ensures z == Machine.Requeue(m, e, lastTs)
  {
  }

  lemma {:induction false} LeastExists(heap: multiset<Entry>)
    requires heap != multiset{}
    ensures exists e :: e in heap && Least(heap, e)
    decreases |heap|
  {
    var e :| e in heap;
    var rest := heap - multiset{e};
    if rest == multiset{} {
      assert heap == multiset{e};
      assert Least(heap, e);
    } else {
      LeastExists(rest);
      var f :| f in rest && Least(rest, f);
      assert forall g :: g in heap ==> g == e || g in rest;
      assert Least(heap, if e.key <= f.key then e else f);
    }
  }

  // Whom a token may wake is in the table and has an event.
  ghost predicate WakesKnown(a: State) {
    forall k :: k in a.pendingFrees ==> a.pendingFrees[k] in a.threads && a.Waiting(a.pendingFrees[k])
  }

  // The top of the heap can have its turn.
  lemma TopIsReady(ops: seq<Op>, s: State, e: Entry)
    requires Run(Init(), ops, s) && Least(s.heap, e)
    ensures HistoryOK(s) && Followed(s) && s.Waiting(e.tid) && e.tid in s.threads
    ensures !Blocked(s, e.tid) ==> WakesKnown(Machine.Advance(s, e))
  {
    assert Reachable(s);
    ReachableInv(s);
    ReachableFollowed(s);
    AdvanceKeepsQueues(s, e);
    AdvanceKeepsTable(s, e);
  }

  lemma TopRuns(ops: seq<Op>, s: State, e: Entry)
    requires Run(Init(), ops, s) && Least(s.heap, e) && s.Waiting(e.tid)
    ensures Run(Init(), ops + [OpPick(e)], Step(s, e))
  {
    RunSnoc(Init(), ops, s, OpPick(e));
  }

  // The token an event brings to life, or the marker for none.
  function NewToken(ev: Event): Token {
    if ev.Gives().Some? then ev.Gives().value else EMPTY_TOKEN
  }

  // The operations that are not turns of the drain loop.
  function Inputs(ops: seq<Op>): seq<Op> {
    if ops == [] then []
    else Inputs(ops[..|ops| - 1]) + if ops[|ops| - 1].OpPick? then [] else [ops[|ops| - 1]]
  }

  lemma InputsSnoc(ops: seq<Op>, op: Op)
    ensures Inputs(ops + [op]) == Inputs(ops) + if op.OpPick? then [] else [op]
  {
    assert (ops + [op])[..|ops|] == ops;
  }

  lemma StepKeepsInputs(s: State, e: Entry)
    requires s.Waiting(e.tid)
    ensures Step(s, e).prog == s.prog && Step(s, e).dead == s.dead
  {
    AdvanceKeepsInputs(s, e);
  }

  lemma AdvanceKeepsInputs(s: State, e: Entry)
    requires s.Waiting(e.tid)
    ensures Machine.Advance(s, e).prog == s.prog && Machine.Advance(s, e).dead == s.dead
  {
  }
}
