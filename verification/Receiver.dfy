/** The receiver: turns calls on tokens into instructions on registers. */
module Receiver {
  import opened Wrappers
  import opened Events
  import opened Calls
  import opened Replay
  import opened IdTrees

  // Where a live token's object is kept, and its size.
  datatype Cell = Cell(reg: nat, size: int)

  type Cells = map<Token, Cell>

  datatype Counters = Counters(mallocs: nat, frees: nat, sizedFrees: nat, reallocs: nat, memaligns: nat, barriers: nat)

  datatype State = State(cells: Cells, ids: set<nat>, out: seq<Instruction>, counts: Counters)

  const START := State(map[], {}, [], Counters(0, 0, 0, 0, 0, 0))

  // What the receiver demands of its caller: it dereferences the element of a freed token, and
  // asserts that an allocated token is new.
  predicate Accepts(r: State, c: Call) {
    c.Do? ==>
      match c.ev
      case Malloc(tok, _) => tok !in r.cells
      case Memalign(tok, _, _) => tok !in r.cells
      case Realloc(oldTok, newTok, _) => oldTok in r.cells && newTok !in r.cells - {oldTok}
      case Free(tok) => tok in r.cells
      case FreeSized(tok) => tok in r.cells
  }

  function Hear(r: State, c: Call): State
    requires Accepts(r, c)
  {
    match c
    case SwitchThread(tid) => r.(out := r.out + [SWITCH_THREAD(tid)])
    case SetTS(ts, cpu) => r.(out := r.out + [SET_TS_CPU(ts, cpu)])
    case KillCurrentThread => r.(out := r.out + [KILL_THREAD])
    case Barrier => r.(counts := r.counts.(barriers := r.counts.barriers + 1))
    case Do(ev) =>
      var reg := LeastFree(r.ids);
      match ev
      case Malloc(tok, size) =>
        State(r.cells[tok := Cell(reg, size)], r.ids + {reg}, r.out + [MALLOC(reg, size)],
              r.counts.(mallocs := r.counts.mallocs + 1))
      case Memalign(tok, size, align) =>
        State(r.cells[tok := Cell(reg, size)], r.ids + {reg}, r.out + [MEMALIGN(reg, size, align)],
              r.counts.(memaligns := r.counts.memaligns + 1))
      case Realloc(oldTok, newTok, newSize) =>
        var oldReg := r.cells[oldTok].reg;
        State((r.cells - {oldTok})[newTok := Cell(reg, newSize)], r.ids + {reg} - {oldReg},
              r.out + [REALLOC(oldReg, reg, newSize)], r.counts.(reallocs := r.counts.reallocs + 1))
      case Free(tok) =>
        var cell := r.cells[tok];
        State(r.cells - {tok}, r.ids - {cell.reg}, r.out + [FREE_SIZED(cell.reg, cell.size)],
              r.counts.(frees := r.counts.frees + 1))
      case FreeSized(tok) =>
        var cell := r.cells[tok];
        State(r.cells - {tok}, r.ids - {cell.reg}, r.out + [FREE_SIZED(cell.reg, cell.size)],
              r.counts.(sizedFrees := r.counts.sizedFrees + 1))
  }

  // ---------- Whole logs ----------

  // The tokens alive after the calls of a log.
  function Alive(log: seq<Call>): set<Token> {
    if log == [] then {}
    else
      var before, c := log[..|log| - 1], log[|log| - 1];
      if c.Do? then Alive(before) - ToSet(c.ev.Takes()) + ToSet(c.ev.Gives()) else Alive(before)
  }

  // Every token taken is alive, and every token given is new.
  predicate Orderly(log: seq<Call>) {
    log == [] ||
    var before, c := log[..|log| - 1], log[|log| - 1];
    Orderly(before) &&
    (c.Do? ==>
      && ToSet(c.ev.Takes()) <= Alive(before)
      && ToSet(c.ev.Gives()) !! (Alive(before) - ToSet(c.ev.Takes())))
  }

  // The greatest number of objects that existed at the same time, counting both objects of a
  // realloc while it is copying.
  function Peak(log: seq<Call>): nat {
    if log == [] then 0
    else
      var before, c := log[..|log| - 1], log[|log| - 1];
      var now := |Alive(before)| + if c.Do? && c.ev.Gives().Some? then 1 else 0;
      if now > Peak(before) then now else Peak(before)
  }

  lemma AliveSnoc(log: seq<Call>, c: Call)
    ensures Alive(log + [c]) ==
            if c.Do? then Alive(log) - ToSet(c.ev.Takes()) + ToSet(c.ev.Gives()) else Alive(log)
    ensures Orderly(log + [c]) <==>
            Orderly(log) && (c.Do? ==>
              && ToSet(c.ev.Takes()) <= Alive(log)
              && ToSet(c.ev.Gives()) !! (Alive(log) - ToSet(c.ev.Takes())))
    ensures Peak(log + [c]) >= Peak(log)
    ensures c.Do? && c.ev.Gives().Some? ==> Peak(log + [c]) > |Alive(log)|
  {
    assert (log + [c])[..|log|] == log;
  }

  // The state of the receiver after the calls of a log.
  function HearAll(log: seq<Call>): State {
    if log == [] then START
    else
      var r, c := HearAll(log[..|log| - 1]), log[|log| - 1];
      if Accepts(r, c) then Hear(r, c) else r
  }

  // ---------- Tokens, ids and registers agree ----------

  ghost predicate Owned(cells: Cells, r: nat) {
    exists t :: t in cells && cells[t].reg == r
  }

  // Every live token has a register of its own, which holds an object of the token's size; and
  // there are no other full registers.
  ghost predicate Owners(cells: Cells, regs: Registers) {
    && (forall t :: t in cells ==> cells[t].reg in regs && regs[cells[t].reg] == cells[t].size)
    && (forall t, u :: t in cells && u in cells && cells[t].reg == cells[u].reg ==> t == u)
    && (forall r :: r in regs ==> Owned(cells, r))
  }

  // The full registers are the ids taken, and there is one for each live token.
  ghost predicate Matched(cells: Cells, ids: set<nat>, regs: Registers) {
    && Owners(cells, regs)
    && (forall r :: r in regs <==> r in ids)
    && |cells| == |ids| == |regs|
  }

  lemma OwnersAdd(cells: Cells, regs: Registers, tok: Token, reg: nat, size: int)
    requires Owners(cells, regs) && tok !in cells && reg !in regs
    ensures Owners(cells[tok := Cell(reg, size)], regs[reg := size])
  {
    var more := cells[tok := Cell(reg, size)];
    forall r | r in regs[reg := size] ensures Owned(more, r) {
      if r == reg {
        assert more[tok].reg == r;
      } else {
        assert Owned(cells, r);
        var t :| t in cells && cells[t].reg == r;
        assert more[t].reg == r;
      }
    }
  }

  lemma OwnersDrop(cells: Cells, regs: Registers, tok: Token)
    requires Owners(cells, regs) && tok in cells
    ensures Owners(cells - {tok}, regs - {cells[tok].reg})
  {
    var fewer := cells - {tok};
    forall r | r in regs - {cells[tok].reg} ensures Owned(fewer, r) {
      assert Owned(cells, r);
      var t :| t in cells && cells[t].reg == r;
      assert fewer[t].reg == r;
    }
  }

  lemma MatchedAdd(cells: Cells, ids: set<nat>, regs: Registers, tok: Token, reg: nat, size: int)
    requires Matched(cells, ids, regs) && tok !in cells && reg !in ids
    ensures Matched(cells[tok := Cell(reg, size)], ids + {reg}, regs[reg := size])
  {
    OwnersAdd(cells, regs, tok, reg, size);
    SizeAdd(cells, tok, Cell(reg, size));
    SizeAdd(regs, reg, size);
  }

  lemma MatchedDrop(cells: Cells, ids: set<nat>, regs: Registers, tok: Token)
    requires Matched(cells, ids, regs) && tok in cells
    ensures Matched(cells - {tok}, ids - {cells[tok].reg}, regs - {cells[tok].reg})
  {
    OwnersDrop(cells, regs, tok);
    SizeDrop(cells, tok);
    SizeDrop(regs, cells[tok].reg);
  }

  // ---------- The invariant of the receiver ----------

  predicate NamesBelow(out: seq<Instruction>, bound: nat) {
    forall k, r :: 0 <= k < |out| && r in Names(out[k]) ==> r < bound
  }

  // The tokens with a register are the live ones, and the counters count them.
  ghost predicate CellsInv(r: State, alive: set<Token>) {
    && (forall t :: t in r.cells <==> t in alive)
    && |r.cells| == |alive|
    && Matched(r.cells, r.ids, RegsAfter(r.out))
    && Held(r.counts) == |r.cells|
  }

  // How many objects the counters say are left allocated.
  function Held(c: Counters): int {
    c.mallocs + c.memaligns - c.frees - c.sizedFrees
  }

  // The instructions are tidy, name few registers, and tell replay the threads the log told of.
  ghost predicate OutInv(out: seq<Instruction>, log: seq<Call>) {
    && TidyTrace(out)
    && NamesBelow(out, Peak(log))
    && ThreadAfter(out) == Current(log)
    && (CrispTrace(out) <==> Crisp(log))
  }

  ghost predicate Inv(r: State, log: seq<Call>) {
    CellsInv(r, Alive(log)) && OutInv(r.out, log)
  }

  lemma {:induction false} FullWasNamed(out: seq<Instruction>, reg: nat)
    requires reg in RegsAfter(out)
    ensures exists k :: 0 <= k < |out| && reg in Names(out[k])
  {
    if reg !in Names(out[|out| - 1]) {
      FullWasNamed(out[..|out| - 1], reg);
    }
  }

  // An instruction that is tidy, names full registers or ones below the new peak, and tells the
  // same about threads as the call does.
  lemma OutSnoc(out: seq<Instruction>, log: seq<Call>, i: Instruction, c: Call)
    requires OutInv(out, log) && Tidy(RegsAfter(out), i)
    requires forall r :: r in Names(i) ==> r in RegsAfter(out) || r < Peak(log + [c])
    requires match c
             case SwitchThread(t) => i == SWITCH_THREAD(t)
             case KillCurrentThread => i == KILL_THREAD
             case _ => !i.SWITCH_THREAD? && !i.KILL_THREAD?
    ensures OutInv(out + [i], log + [c])
  {
    AliveSnoc(log, c);
    LogSnoc(log, c);
    TraceSnoc(out, i);
    forall k, r | 0 <= k <= |out| && r in Names((out + [i])[k]) ensures r < Peak(log + [c]) {
      if k == |out| && r in RegsAfter(out) {
        FullWasNamed(out, r);
      }
    }
  }

  lemma HearMark(r: State, log: seq<Call>, c: Call)
    requires Inv(r, log) && !c.Do?
    ensures Inv(Hear(r, c), log + [c])
  {
    AliveSnoc(log, c);
    if c.Barrier? {
      LogSnoc(log, c);
    } else {
      var i := match c case SwitchThread(t) => SWITCH_THREAD(t) case SetTS(ts, cpu) => SET_TS_CPU(ts, cpu) case _ => KILL_THREAD;
      OutSnoc(r.out, log, i, c);
      TraceSnoc(r.out, i);
    }
  }

  lemma GainCells(r: State, alive: set<Token>, tok: Token, reg: nat, size: int, z: State)
    requires CellsInv(r, alive) && tok !in r.cells && reg !in r.ids
    requires z.cells == r.cells[tok := Cell(reg, size)] && z.ids == r.ids + {reg}
    requires RegsAfter(z.out) == RegsAfter(r.out)[reg := size] && Held(z.counts) == Held(r.counts) + 1
    ensures CellsInv(z, alive + {tok})
  {
    MatchedAdd(r.cells, r.ids, RegsAfter(r.out), tok, reg, size);
    SizeAdd(r.cells, tok, Cell(reg, size));
  }

  lemma HearGain(r: State, log: seq<Call>, ev: Event)
    requires Inv(r, log) && (ev.Malloc? || ev.Memalign?) && ev.tok !in r.cells
    ensures Inv(Hear(r, Do(ev)), log + [Do(ev)])
  {
    var reg, z := LeastFree(r.ids), Hear(r, Do(ev));
    var i := if ev.Malloc? then MALLOC(reg, ev.size) else MEMALIGN(reg, ev.size, ev.align);
    assert z.out == r.out + [i];
    AliveSnoc(log, Do(ev));
    assert OutInv(z.out, log + [Do(ev)]) by {
      OutSnoc(r.out, log, i, Do(ev));
    }
    assert CellsInv(z, Alive(log) + {ev.tok}) by {
      TraceSnoc(r.out, i);
      GainCells(r, Alive(log), ev.tok, reg, ev.size, z);
    }
  }

  lemma LoseCells(r: State, alive: set<Token>, tok: Token, z: State)
    requires CellsInv(r, alive) && tok in r.cells
    requires z.cells == r.cells - {tok} && z.ids == r.ids - {r.cells[tok].reg}
    requires RegsAfter(z.out) == RegsAfter(r.out) - {r.cells[tok].reg} && Held(z.counts) == Held(r.counts) - 1
    ensures CellsInv(z, alive - {tok})
  {
    MatchedDrop(r.cells, r.ids, RegsAfter(r.out), tok);
    SizeDrop(r.cells, tok);
  }

  lemma HearLose(r: State, log: seq<Call>, ev: Event)
    requires Inv(r, log) && (ev.Free? || ev.FreeSized?) && ev.tok in r.cells
    ensures Inv(Hear(r, Do(ev)), log + [Do(ev)])
  {
    hide TidyTrace, CrispTrace, RegsAfter, Peak;
    var cell, z := r.cells[ev.tok], Hear(r, Do(ev));
    var i := FREE_SIZED(cell.reg, cell.size);
    assert z.out == r.out + [i];
    AliveSnoc(log, Do(ev));
    assert OutInv(z.out, log + [Do(ev)]) by {
      OutSnoc(r.out, log, i, Do(ev));
    }
    assert CellsInv(z, Alive(log) - {ev.tok}) by {
      TraceSnoc(r.out, i);
      LoseCells(r, Alive(log), ev.tok, z);
    }
  }

  lemma MatchedMove(cells: Cells, ids: set<nat>, regs: Registers, oldTok: Token, newTok: Token, reg: nat, size: int)
    requires Matched(cells, ids, regs) && oldTok in cells && newTok !in cells - {oldTok} && reg !in ids
    ensures var oldReg := cells[oldTok].reg;
            Matched((cells - {oldTok})[newTok := Cell(reg, size)], ids + {reg} - {oldReg}, (regs - {oldReg})[reg := size])
  {
    hide Owners;
    var oldReg := cells[oldTok].reg;
    MatchedDrop(cells, ids, regs, oldTok);
    assert ids - {oldReg} + {reg} == ids + {reg} - {oldReg};
    MatchedAdd(cells - {oldTok}, ids - {oldReg}, regs - {oldReg}, newTok, reg, size);
  }

  lemma MoveCells(r: State, alive: set<Token>, oldTok: Token, newTok: Token, reg: nat, size: int, z: State)
    requires CellsInv(r, alive) && oldTok in r.cells && newTok !in r.cells - {oldTok} && reg !in r.ids
    requires z.cells == (r.cells - {oldTok})[newTok := Cell(reg, size)] && z.ids == r.ids + {reg} - {r.cells[oldTok].reg}
    requires RegsAfter(z.out) == (RegsAfter(r.out) - {r.cells[oldTok].reg})[reg := size] && Held(z.counts) == Held(r.counts)
    ensures CellsInv(z, alive - {oldTok} + {newTok})
  {
    MatchedMove(r.cells, r.ids, RegsAfter(r.out), oldTok, newTok, reg, size);
    SizeMove(r.cells, oldTok, newTok, Cell(reg, size));
  }

  lemma HearMove(r: State, log: seq<Call>, ev: Event)
    requires Inv(r, log) && ev.Realloc? && Accepts(r, Do(ev))
    ensures Inv(Hear(r, Do(ev)), log + [Do(ev)])
  {
    hide TidyTrace, CrispTrace, RegsAfter, Peak;
    var reg, z := LeastFree(r.ids), Hear(r, Do(ev));
    var i := REALLOC(r.cells[ev.oldTok].reg, reg, ev.newSize);
    assert z.out == r.out + [i];
    AliveSnoc(log, Do(ev));
    assert OutInv(z.out, log + [Do(ev)]) by {
      OutSnoc(r.out, log, i, Do(ev));
    }
    assert CellsInv(z, Alive(log) - {ev.oldTok} + {ev.newTok}) by {
      TraceSnoc(r.out, i);
      MoveCells(r, Alive(log), ev.oldTok, ev.newTok, reg, ev.newSize, z);
    }
  }

  lemma HearKeeps(r: State, log: seq<Call>, c: Call)
    requires Inv(r, log) && Orderly(log + [c])
    ensures Accepts(r, c) && Inv(Hear(r, c), log + [c])
  {
    AliveSnoc(log, c);
    if !c.Do? {
      HearMark(r, log, c);
    } else {
      var takes, gives := c.ev.Takes(), c.ev.Gives();
      assert takes.Some? ==> takes.value in ToSet(takes);
      assert gives.Some? ==> gives.value in ToSet(gives);
      match c.ev
      case Malloc(_, _) => HearGain(r, log, c.ev);
      case Memalign(_, _, _) => HearGain(r, log, c.ev);
      case Free(_) => HearLose(r, log, c.ev);
      case FreeSized(_) => HearLose(r, log, c.ev);
      case Realloc(_, _, _) => HearMove(r, log, c.ev);
    }
  }

  // The receiver can follow every orderly log, and keeps its invariant.
  lemma {:induction false} HearAllKeeps(log: seq<Call>)
    requires Orderly(log)
    ensures Inv(HearAll(log), log)
    ensures log != [] ==> Accepts(HearAll(log[..|log| - 1]), log[|log| - 1])
  {
    if log != [] {
      var before, c := log[..|log| - 1], log[|log| - 1];
      assert log == before + [c];
      HearAllKeeps(before);
      HearKeeps(HearAll(before), before, c);
    }
  }

  lemma HearAllSnoc(log: seq<Call>, c: Call)
    requires Orderly(log + [c])
    ensures Orderly(log) && Accepts(HearAll(log), c) && HearAll(log + [c]) == Hear(HearAll(log), c)
  {
    assert (log + [c])[..|log|] == log;
    HearAllKeeps(log + [c]);
  }

  // ---------- Which registers are named ----------

  ghost predicate Named(out: seq<Instruction>, r: nat) {
    exists k :: 0 <= k < |out| && r in Names(out[k])
  }

  lemma NamedSnoc(out: seq<Instruction>, i: Instruction, r: nat)
    ensures Named(out + [i], r) <==> Named(out, r) || r in Names(i)
  {
    if Named(out, r) {
      var k :| 0 <= k < |out| && r in Names(out[k]);
      assert r in Names((out + [i])[k]);
    }
    if r in Names(i) {
      assert r in Names((out + [i])[|out|]);
    }
  }

  lemma {:induction false} FewBelow(ids: set<nat>, n: nat)
    requires forall x :: x in ids ==> x < n
    ensures |ids| <= n
  {
    if n == 0 {
      assert forall x :: x !in ids;
      NoneAtAll(ids);
    } else {
      var rest := ids - {n - 1};
      FewBelow(rest, n - 1);
      if n - 1 in ids {
        assert |ids| == |rest| + 1;
      } else {
        SameWithout(ids, n - 1);
      }
    }
  }

  lemma NoneAtAll<T>(s: set<T>)
    requires forall x :: x !in s
    ensures s == {}
  {
  }

  lemma SameWithout<T>(s: set<T>, x: T)
    requires x !in s
    ensures s - {x} == s
  {
  }

  // If n ids are taken and all are below n, the next one is n.
  lemma NextIsPeak(ids: set<nat>, n: nat)
    requires (forall x :: x in ids ==> x < n) && |ids| >= n
    ensures LeastFree(ids) >= n
  {
    var r := LeastFree(ids);
    if r < n {
      FewBelow(ids + {r}, n);
    }
  }

  // The ids taken are as many as the live tokens, and below the peak.
  lemma IdsBelowPeak(log: seq<Call>)
    requires Orderly(log)
    ensures |HearAll(log).ids| == |Alive(log)| && forall x :: x in HearAll(log).ids ==> x < Peak(log)
  {
    var r := HearAll(log);
    assert CellsInv(r, Alive(log)) && NamesBelow(r.out, Peak(log)) by {
      HearAllKeeps(log);
    }
    forall x | x in r.ids ensures x < Peak(log) {
      assert x in RegsAfter(r.out);
      FullWasNamed(r.out, x);
    }
  }

  // A call adds at most one instruction; one that gives a token names the register it takes.
  lemma HearNames(r: State, c: Call)
    requires Accepts(r, c)
    ensures Hear(r, c).out == r.out || exists i :: Hear(r, c).out == r.out + [i]
    ensures c.Do? && c.ev.Gives().Some? ==> Named(Hear(r, c).out, LeastFree(r.ids))
  {
    if c.Do? && c.ev.Gives().Some? {
      var i := Hear(r, c).out[|r.out|];
      assert Hear(r, c).out == r.out + [i] && LeastFree(r.ids) in Names(i);
      NamedSnoc(r.out, i, LeastFree(r.ids));
    } else if !c.Barrier? {
      var i := Hear(r, c).out[|r.out|];
      assert Hear(r, c).out == r.out + [i];
    }
  }

  lemma PeakSnoc(log: seq<Call>, c: Call)
    ensures Peak(log + [c]) == Peak(log) ||
            (c.Do? && c.ev.Gives().Some? && Peak(log + [c]) == |Alive(log)| + 1 && |Alive(log)| >= Peak(log)) ||
            (Peak(log + [c]) == |Alive(log)| > Peak(log))
  {
    assert (log + [c])[..|log|] == log;
  }

  // A call that makes the peak grow takes the register just below the new peak.
  lemma PeakGrows(log: seq<Call>, c: Call)
    requires Orderly(log + [c]) && Peak(log + [c]) > Peak(log)
    ensures Peak(log + [c]) == Peak(log) + 1 && Named(HearAll(log + [c]).out, Peak(log))
  {
    hide HearAll, Hear, Orderly, Peak, Alive, Named;
    HearAllSnoc(log, c);
    IdsBelowPeak(log);
    PeakSnoc(log, c);
    var ids := HearAll(log).ids;
    FewBelow(ids, Peak(log));
    NextIsPeak(ids, Peak(log));
    HearNames(HearAll(log), c);
  }

  lemma NamedStep(log: seq<Call>, c: Call, reg: nat)
    requires Orderly(log + [c]) && (Named(HearAll(log).out, reg) <==> reg < Peak(log))
    ensures Named(HearAll(log + [c]).out, reg) <==> reg < Peak(log + [c])
  {
    hide HearAll, Orderly, Peak, Alive, Named;
    PeakSnoc(log, c);
    if Named(HearAll(log).out, reg) {
      NamedStays(log, c, reg);
    }
    if Peak(log + [c]) > Peak(log) {
      PeakGrows(log, c);
    }
    if Named(HearAll(log + [c]).out, reg) {
      NamedIsBelow(log + [c], reg);
    }
  }

  // The registers named in the output are exactly those below the peak.
  lemma {:induction false} NamedIffBelowPeak(log: seq<Call>, reg: nat)
    requires Orderly(log)
    ensures Named(HearAll(log).out, reg) <==> reg < Peak(log)
  {
    if log != [] {
      var before, c := log[..|log| - 1], log[|log| - 1];
      assert log == before + [c];
      NamedIffBelowPeak(before, reg);
      NamedStep(before, c, reg);
    }
  }

  lemma NamedIsBelow(log: seq<Call>, reg: nat)
    requires Orderly(log) && Named(HearAll(log).out, reg)
    ensures reg < Peak(log)
  {
    assert NamesBelow(HearAll(log).out, Peak(log)) by {
      HearAllKeeps(log);
    }
  }

  lemma NamedStays(log: seq<Call>, c: Call, reg: nat)
    requires Orderly(log + [c]) && Named(HearAll(log).out, reg)
    ensures Named(HearAll(log + [c]).out, reg)
  {
    HearAllSnoc(log, c);
    var r := HearAll(log);
    HearNames(r, c);
    if Hear(r, c).out != r.out {
      var i :| Hear(r, c).out == r.out + [i];
      NamedSnoc(r.out, i, reg);
    }
  }

  // ---------- What is left at the end ----------

  // The frees that the tokens listed in order get.
  function FreesOf(cells: Cells, order: seq<Token>): seq<Instruction>
    requires forall k :: 0 <= k < |order| ==> order[k] in cells
  {
    if order == [] then []
    else FreesOf(cells, order[..|order| - 1]) + [FREE(cells[order[|order| - 1]].reg)]
  }

  // Each of them is an unsized free of its token's register.
  lemma {:induction false} FreesAt(cells: Cells, order: seq<Token>, k: nat)
    requires (forall i :: 0 <= i < |order| ==> order[i] in cells) && k < |order|
    ensures |FreesOf(cells, order)| == |order| && FreesOf(cells, order)[k] == FREE(cells[order[k]].reg)
  {
    var before := order[..|order| - 1];
    if k < |order| - 1 {
      FreesAt(cells, before, k);
    } else if before != [] {
      FreesAt(cells, before, 0);
    }
  }

  lemma FreesBehind(out: seq<Instruction>, cells: Cells, order: seq<Token>)
    requires forall i :: 0 <= i < |order| ==> order[i] in cells
    ensures var all := out + FreesOf(cells, order);
            && |all| == |out| + |order| && all[..|out|] == out
            && forall k :: 0 <= k < |order| ==> all[|out| + k] == FREE(cells[order[k]].reg)
  {
    hide FreesOf;
    var all := out + FreesOf(cells, order);
    if order == [] {
      assert FreesOf(cells, order) == [] by {
        NoFrees(cells);
      }
    } else {
      FreesAt(cells, order, 0);
    }
    forall k | 0 <= k < |order| ensures all[|out| + k] == FREE(cells[order[k]].reg) {
      FreesAt(cells, order, k);
    }
  }

  lemma NoFrees(cells: Cells)
    ensures FreesOf(cells, []) == []
  {
  }

  // order lists every token of cells once.
  ghost predicate Lists(order: seq<Token>, cells: Cells) {
    && (forall i, j :: 0 <= i < j < |order| ==> order[i] != order[j])
    && (forall k :: 0 <= k < |order| ==> order[k] in cells)
    && (forall t :: t in cells ==> t in order)
  }

  // Of the registers regs, those of the tokens in order have been emptied.
  ghost predicate Emptied(cells: Cells, order: seq<Token>, regs: Registers, now: Registers) {
    && (forall t :: t in cells ==> (cells[t].reg in now <==> t !in order))
    && (forall r :: r in now ==> r in regs)
  }

  lemma EmptiedSnoc(cells: Cells, order: seq<Token>, t: Token, regs: Registers, now: Registers)
    requires Owners(cells, regs) && Emptied(cells, order, regs, now) && t in cells && t !in order
    ensures cells[t].reg in now && Emptied(cells, order + [t], regs, now - {cells[t].reg})
  {
  }

  lemma FreeOne(sofar: seq<Instruction>, cells: Cells, order: seq<Token>, t: Token, regs: Registers)
    requires TidyTrace(sofar) && Owners(cells, regs) && Emptied(cells, order, regs, RegsAfter(sofar))
    requires t in cells && t !in order
    ensures TidyTrace(sofar + [FREE(cells[t].reg)])
    ensures Emptied(cells, order + [t], regs, RegsAfter(sofar + [FREE(cells[t].reg)]))
  {
    EmptiedSnoc(cells, order, t, regs, RegsAfter(sofar));
    TraceSnoc(sofar, FREE(cells[t].reg));
  }

  // Freeing some tokens, each once, keeps the trace tidy and empties exactly their registers.
  lemma {:induction false} FreesAreTidy(out: seq<Instruction>, cells: Cells, order: seq<Token>)
    requires TidyTrace(out) && Owners(cells, RegsAfter(out))
    requires forall k :: 0 <= k < |order| ==> order[k] in cells
    requires forall i, j :: 0 <= i < j < |order| ==> order[i] != order[j]
    ensures TidyTrace(out + FreesOf(cells, order))
    ensures Emptied(cells, order, RegsAfter(out), RegsAfter(out + FreesOf(cells, order)))
  {
    hide TidyTrace, RegsAfter, Owners;
    if order == [] {
      assert out + FreesOf(cells, order) == out;
      NothingEmptied(cells, RegsAfter(out));
    } else {
      var before, t := order[..|order| - 1], order[|order| - 1];
      var sofar := out + FreesOf(cells, before);
      FreesAreTidy(out, cells, before);
      assert order == before + [t] && t !in before;
      FreeOne(sofar, cells, before, t, RegsAfter(out));
      assert out + FreesOf(cells, order) == sofar + [FREE(cells[t].reg)];
    }
  }

  lemma NothingEmptied(cells: Cells, regs: Registers)
    requires Owners(cells, regs)
    ensures Emptied(cells, [], regs, regs)
  {
  }

  lemma NoneFull(cells: Cells, order: seq<Token>, regs: Registers, now: Registers)
    requires Owners(cells, regs) && Lists(order, cells) && Emptied(cells, order, regs, now)
    ensures now == map[]
  {
    assert forall r :: r in now ==> Owned(cells, r);
  }

  lemma FreesEmpty(out: seq<Instruction>, cells: Cells, order: seq<Token>)
    requires TidyTrace(out) && Owners(cells, RegsAfter(out)) && Lists(order, cells)
    ensures var all := out + FreesOf(cells, order);
            TidyTrace(all) && RegsAfter(all) == map[] && CountAfter(all) == 0
  {
    var all := out + FreesOf(cells, order);
    FreesAreTidy(out, cells, order);
    NoneFull(cells, order, RegsAfter(out), RegsAfter(all));
    CountIsFull(all);
  }

  // After the final frees, in whatever order, replay is left with no full register and its
  // counter at zero.
  lemma DumpLeavesNothing(log: seq<Call>, order: seq<Token>)
    requires Orderly(log) && Lists(order, HearAll(log).cells)
    ensures var r := HearAll(log); var all := r.out + FreesOf(r.cells, order);
            TidyTrace(all) && RegsAfter(all) == map[] && CountAfter(all) == 0
  {
    var r := HearAll(log);
    assert TidyTrace(r.out) && Owners(r.cells, RegsAfter(r.out)) by {
      HearAllKeeps(log);
    }
    FreesEmpty(r.out, r.cells, order);
  }

  // order lists every token of cells once, except those left.
  ghost predicate ListsBut(order: seq<Token>, cells: Cells, left: set<Token>) {
    && (forall i, j :: 0 <= i < j < |order| ==> order[i] != order[j])
    && (forall k :: 0 <= k < |order| ==> order[k] in cells && order[k] !in left)
    && (forall t :: t in cells ==> t in order || t in left)
  }

  lemma ListOne(order: seq<Token>, cells: Cells, left: set<Token>, t: Token)
    requires ListsBut(order, cells, left) && t in left && t in cells
    ensures ListsBut(order + [t], cells, left - {t})
    ensures FreesOf(cells, order + [t]) == FreesOf(cells, order) + [FREE(cells[t].reg)]
  {
    assert (order + [t])[..|order|] == order;
  }

  lemma HearRealloc(r: State, oldTok: Token, newTok: Token, newSize: int, z: State)
    requires Accepts(r, Do(Realloc(oldTok, newTok, newSize)))
    requires var oldReg, reg := r.cells[oldTok].reg, LeastFree(r.ids);
             && z.cells == (r.cells - {oldTok})[newTok := Cell(reg, newSize)]
             && z.ids == r.ids + {reg} - {oldReg}
             && z.out == r.out + [REALLOC(oldReg, reg, newSize)]
             && z.counts == r.counts.(reallocs := r.counts.reallocs + 1)
    ensures z == Hear(r, Do(Realloc(oldTok, newTok, newSize)))
  {
  }

  // ---------- The program ----------

  class SimpleReceiver {
    const idsSpace: IdTree
    var table: Cells
    var out: seq<Instruction>
    var counts: Counters

    ghost predicate Valid()
      reads this, idsSpace
    {
      idsSpace.Valid()
    }

    ghost function View(): State
      reads this, idsSpace
    {
      State(table, idsSpace.Live(), out, counts)
    }

    constructor ()
      ensures Valid() && View() == START && fresh(idsSpace)
    {
      idsSpace := new IdTree();
      table, out, counts := map[], [], Counters(0, 0, 0, 0, 0, 0);
    }

    method Dump(i: Instruction)
      modifies `out
      ensures out == old(out) + [i]
    {
      out := out + [i];
    }

    method KillCurrentThread()
      requires Valid()
      modifies this
      ensures Valid() && View() == Hear(old(View()), Call.KillCurrentThread)
    {
      Dump(KILL_THREAD);
    }

    method SwitchThread(tid: Tid)
      requires Valid()
      modifies this
      ensures Valid() && View() == Hear(old(View()), Call.SwitchThread(tid))
    {
      Dump(SWITCH_THREAD(tid));
    }

    method SetTS(ts: int, cpu: int)
      requires Valid()
      modifies this
      ensures Valid() && View() == Hear(old(View()), Call.SetTS(ts, cpu))
    {
      Dump(SET_TS_CPU(ts, cpu));
    }

    method Malloc(tok: Token, size: int)
      requires Valid() && Accepts(View(), Do(Event.Malloc(tok, size)))
      modifies this, idsSpace
      ensures Valid() && View() == Hear(old(View()), Do(Event.Malloc(tok, size)))
    {
      hide LeastFree, IdTree.Valid, IdTree.Live;
      var reg := idsSpace.AllocateId();
      table := table[tok := Cell(reg, size)];
      Dump(MALLOC(reg, size));
      counts := counts.(mallocs := counts.mallocs + 1);
    }

    method Memalign(tok: Token, size: int, align: int)
      requires Valid() && Accepts(View(), Do(Event.Memalign(tok, size, align)))
      modifies this, idsSpace
      ensures Valid() && View() == Hear(old(View()), Do(Event.Memalign(tok, size, align)))
    {
      hide LeastFree, IdTree.Valid, IdTree.Live;
      var reg := idsSpace.AllocateId();
      table := table[tok := Cell(reg, size)];
      Dump(MEMALIGN(reg, size, align));
      counts := counts.(memaligns := counts.memaligns + 1);
    }

    // The old register has to be a live id for it to be taken back.
    method Realloc(oldTok: Token, newTok: Token, newSize: int)
      requires Valid() && Accepts(View(), Do(Event.Realloc(oldTok, newTok, newSize)))
      requires table[oldTok].reg in View().ids
      modifies this, idsSpace
      ensures Valid() && View() == Hear(old(View()), Do(Event.Realloc(oldTok, newTok, newSize)))
    {
      var oldReg := table[oldTok].reg;
      var newReg := idsSpace.AllocateId();
      table := table - {oldTok};
      table := table[newTok := Cell(newReg, newSize)];
      idsSpace.FreeId(oldReg);
      Dump(REALLOC(oldReg, newReg, newSize));
      counts := counts.(reallocs := counts.reallocs + 1);
      HearRealloc(old(View()), oldTok, newTok, newSize, View());
    }

    method Free(tok: Token)
      requires Valid() && Accepts(View(), Do(Event.Free(tok))) && table[tok].reg in View().ids
      modifies this, idsSpace
      ensures Valid() && View() == Hear(old(View()), Do(Event.Free(tok)))
    {
      var oldReg, size := table[tok].reg, table[tok].size;
      table := table - {tok};
      idsSpace.FreeId(oldReg);
      Dump(FREE_SIZED(oldReg, size));
      counts := counts.(frees := counts.frees + 1);
    }

    method FreeSized(tok: Token)
      requires Valid() && Accepts(View(), Do(Event.FreeSized(tok))) && table[tok].reg in View().ids
      modifies this, idsSpace
      ensures Valid() && View() == Hear(old(View()), Do(Event.FreeSized(tok)))
    {
      var oldReg, size := table[tok].reg, table[tok].size;
      table := table - {tok};
      idsSpace.FreeId(oldReg);
      Dump(FREE_SIZED(oldReg, size));
      counts := counts.(sizedFrees := counts.sizedFrees + 1);
    }

    method Barrier()
      requires Valid()
      modifies this
      ensures Valid() && View() == Hear(old(View()), Call.Barrier)
    {
      counts := counts.(barriers := counts.barriers + 1);
    }

    predicate HasAllocated(tok: Token)
      reads `table
    {
      tok in table
    }

    static method AnyOf<T>(s: set<T>) returns (x: T)
      requires s != {}
      ensures x in s
    {
      x :| x in s;
    }

    // Frees what is left, in the order the table happens to list it.
    method DumpAllDeallocations() returns (ghost order: seq<Token>)
      modifies this
      ensures table == old(table) && Lists(order, table)
      ensures out == old(out) + FreesOf(table, order)
      ensures |out| == |old(out)| + |order| && out[..|old(out)|] == old(out)
      ensures forall k :: 0 <= k < |order| ==> out[|old(out)| + k] == FREE(table[order[k]].reg)
    {
      order := [];
      var left := table.Keys;
      while left != {}
        invariant table == old(table) && left <= table.Keys && ListsBut(order, table, left)
        invariant out == old(out) + FreesOf(table, order)
        decreases left
      {
        var t := AnyOf(left);
        ListOne(order, table, left, t);
        Dump(FREE(table[t].reg));
        order := order + [t];
        left := left - {t};
      }
      FreesBehind(old(out), table, order);
    }
  }
}
