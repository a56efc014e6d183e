/** Which files can be serialized, and what arrives for the records of one. */
module FileInputs {
  import opened Wrappers
  import opened Words
  import opened Events
  import opened History
  import opened Machine
  import opened TraceCodec
  import opened ThreadCodec
  import opened OuterStream
  import opened SerializeTraces
  import opened Sessions

  // The records of a file count up to the first end record.
  function BeforeEnd(evs: seq<OuterEvent>): seq<OuterEvent> {
    if evs == [] || evs[0].End? then [] else [evs[0]] + BeforeEnd(evs[1..])
  }

  // The buffers of a thread.
  function BufsOf(evs: seq<OuterEvent>, tid: Tid): seq<Buf> {
    if evs == [] then []
    else
      var ev := evs[|evs| - 1];
      BufsOf(evs[..|evs| - 1], tid) + if ev.Buffer? && ev.tid == tid then [Buf(ev.ts, ev.cpu, ev.bytes)] else []
  }

  // What a thread's buffers decode to: tokens start at zero, and so do the previous size and token.
  function Decoded(evs: seq<OuterEvent>, tid: Tid, clocks: Clocks): Option<(seq<Timed>, DecState)> {
    DecodeBufs(BufsOf(evs, tid), DecState(0, 0, 0, clocks(tid).0, clocks(tid).1))
  }

  predicate HandedOver(evs: seq<OuterEvent>, tid: Tid) {
    exists k :: 0 <= k < |evs| && evs[k].Buffer? && evs[k].tid == tid
  }

  predicate Died(evs: seq<OuterEvent>, tid: Tid) {
    exists k :: 0 <= k < |evs| && evs[k].Death? && evs[k].tid == tid
  }

  // A record can follow those before it: nothing follows the death of its thread, only a thread that
  // has handed over a buffer dies, and a buffer can be decoded behind the thread's earlier ones.
  predicate CanFollow(before: seq<OuterEvent>, ev: OuterEvent, clocks: Clocks) {
    match ev
    case Buffer(tid, _, _, _) => !Died(before, tid) && Decoded(before + [ev], tid, clocks).Some?
    case Death(tid, _, _) => !Died(before, tid) && HandedOver(before, tid)
    case SyncBarrier(_, _) => true
    case End => false
  }

  // op is what arrives for record ev.
  predicate Arrives(op: Op, before: seq<OuterEvent>, ev: OuterEvent, clocks: Clocks) {
    match ev
    case Buffer(tid, _, _, _) =>
      && op.OpArrive? && op.t == tid && Decoded(before, tid, clocks).Some? && Decoded(before + [ev], tid, clocks).Some?
      && Decoded(before + [ev], tid, clocks).value.0 == Decoded(before, tid, clocks).value.0 + op.evs
    case Death(tid, _, _) => op == OpDie(tid)
    case SyncBarrier(_, _) => op == OpReap
    case End => false
  }

  // ---------- From bytes to records ----------

  function TakeOne(t: Trace, ev: OuterEvent, clocks: Clocks): Option<Trace> {
    match ev
    case SyncBarrier(_, _) => Some(EndOfRound(t))
    case End => None
    case _ => TakeIn(t, ev, clocks)
  }

  function TakeAll(t: Trace, evs: seq<OuterEvent>, clocks: Clocks): Option<Trace> {
    if evs == [] then Some(t)
    else match TakeAll(t, evs[..|evs| - 1], clocks)
      case None => None
      case Some(m) => TakeOne(m, evs[|evs| - 1], clocks)
  }

  lemma {:induction false} TakeFirst(t: Trace, evs: seq<OuterEvent>, clocks: Clocks)
    requires evs != []
    ensures TakeAll(t, evs, clocks) ==
            match TakeOne(t, evs[0], clocks)
            case None => None
            case Some(m) => TakeAll(m, evs[1..], clocks)
  {
    var before := evs[..|evs| - 1];
    if before == [] {
      assert evs[1..] == [];
    } else {
      TakeFirst(t, before, clocks);
      assert evs[1..][..|evs| - 2] == before[1..];
    }
  }

  predicate Torn(s: seq<byte>) {
    ReadAll(s).1 && End !in ReadAll(s).0
  }

  lemma {:induction false} TraceOfRecords(s: seq<byte>, t: Trace, clocks: Clocks)
    ensures TraceFrom(s, t, clocks) ==
            if Torn(s) then None
            else match TakeAll(t, BeforeEnd(ReadAll(s).0), clocks)
              case None => None
              case Some(m) => Some(EndOfRound(m))
    decreases |s|
  {
    hide TakeIn;
    match ReadOuter(s)
    case NoMore =>
    case Panic =>
    case More(ev, rest) =>
      var evs := BeforeEnd(ReadAll(rest).0);
      assert ReadAll(s).0 == [ev] + ReadAll(rest).0;
      if !ev.End? {
        assert BeforeEnd(ReadAll(s).0) == [ev] + evs;
        TakeFirst(t, [ev] + evs, clocks);
        assert Torn(s) <==> Torn(rest);
        match TakeOne(t, ev, clocks)
        case None =>
        case Some(m) => TraceOfRecords(rest, m, clocks);
      }
  }

  // ---------- What the records amount to ----------

  // The bookkeeping of t about the records evs.
  ghost predicate Knows(t: Trace, evs: seq<OuterEvent>, tid: Tid, clocks: Clocks) {
    && (tid in t.prog <==> HandedOver(evs, tid))
    && (tid in t.dead <==> Died(evs, tid))
    && Decoded(evs, tid, clocks) == Some((ProgramOf(t, tid), DecoderFor(t, tid, clocks)))
  }

  ghost predicate AllArrive(inputs: seq<Op>, evs: seq<OuterEvent>, clocks: Clocks) {
    |inputs| == |evs| && forall k :: 0 <= k < |evs| ==> Arrives(inputs[k], evs[..k], evs[k], clocks)
  }

  ghost predicate AllFollow(evs: seq<OuterEvent>, clocks: Clocks) {
    forall k :: 0 <= k < |evs| ==> CanFollow(evs[..k], evs[k], clocks)
  }

  lemma HandedOverSnoc(evs: seq<OuterEvent>, ev: OuterEvent, tid: Tid)
    ensures HandedOver(evs + [ev], tid) <==> HandedOver(evs, tid) || (ev.Buffer? && ev.tid == tid)
  {
    var all := evs + [ev];
    assert all[|evs|] == ev;
    if HandedOver(evs, tid) {
      var k :| 0 <= k < |evs| && evs[k].Buffer? && evs[k].tid == tid;
      assert all[k] == evs[k];
    }
  }

  lemma DiedSnoc(evs: seq<OuterEvent>, ev: OuterEvent, tid: Tid)
    ensures Died(evs + [ev], tid) <==> Died(evs, tid) || (ev.Death? && ev.tid == tid)
  {
    var all := evs + [ev];
    assert all[|evs|] == ev;
    if Died(evs, tid) {
      var k :| 0 <= k < |evs| && evs[k].Death? && evs[k].tid == tid;
      assert all[k] == evs[k];
    }
  }

  lemma DecodedSnoc(evs: seq<OuterEvent>, ev: OuterEvent, tid: Tid, clocks: Clocks)
    requires Decoded(evs, tid, clocks).Some?
    ensures Decoded(evs + [ev], tid, clocks) ==
            var (done, mid) := Decoded(evs, tid, clocks).value;
            if ev.Buffer? && ev.tid == tid then Continue(done, DecodeBufs([Buf(ev.ts, ev.cpu, ev.bytes)], mid))
            else Decoded(evs, tid, clocks)
  {
    hide DecodeBufs, Continue;
    assert (evs + [ev])[..|evs|] == evs;
    var bufs := BufsOf(evs, tid);
    if ev.Buffer? && ev.tid == tid {
      DecodeBufsConcat(bufs, [Buf(ev.ts, ev.cpu, ev.bytes)], DecState(0, 0, 0, clocks(tid).0, clocks(tid).1));
    } else {
      assert bufs + [] == bufs;
    }
  }

  lemma FollowsOne(t: Trace, evs: seq<OuterEvent>, ev: OuterEvent, clocks: Clocks)
    requires forall tid :: Knows(t, evs, tid, clocks)
    ensures TakeOne(t, ev, clocks).Some? <==> CanFollow(evs, ev, clocks)
  {
    hide HandedOver, Died, Decoded;
    if ev.Buffer? || ev.Death? {
      assert Knows(t, evs, ev.tid, clocks);
    }
    if ev.Buffer? {
      DecodedSnoc(evs, ev, ev.tid, clocks);
    }
  }

  lemma KnowsMore(t: Trace, evs: seq<OuterEvent>, ev: OuterEvent, tid: Tid, clocks: Clocks)
    requires Knows(t, evs, tid, clocks) && TakeOne(t, ev, clocks).Some?
    ensures Knows(TakeOne(t, ev, clocks).value, evs + [ev], tid, clocks)
  {
    hide HandedOver, Died, Decoded, DecodeBufs;
    HandedOverSnoc(evs, ev, tid);
    DiedSnoc(evs, ev, tid);
    DecodedSnoc(evs, ev, tid, clocks);
  }

  lemma ArrivesOne(t: Trace, evs: seq<OuterEvent>, ev: OuterEvent, clocks: Clocks)
    requires (forall tid :: Knows(t, evs, tid, clocks)) && TakeOne(t, ev, clocks).Some?
    ensures exists op :: TakeOne(t, ev, clocks).value.inputs == t.inputs + [op] && Arrives(op, evs, ev, clocks)
  {
    hide HandedOver, Died, Decoded, DecodeBufs;
    if ev.Buffer? {
      assert Knows(t, evs, ev.tid, clocks);
      DecodedSnoc(evs, ev, ev.tid, clocks);
      var op := OpArrive(ev.tid, DecodeBufs([Buf(ev.ts, ev.cpu, ev.bytes)], DecoderFor(t, ev.tid, clocks)).value.0);
      assert TakeOne(t, ev, clocks).value.inputs == t.inputs + [op];
    }
    if ev.Death? {
      assert TakeOne(t, ev, clocks).value.inputs == t.inputs + [OpDie(ev.tid)];
    }
    if ev.SyncBarrier? {
      assert TakeOne(t, ev, clocks).value.inputs == t.inputs + [OpReap];
    }
  }

  lemma ArriveMore(inputs: seq<Op>, evs: seq<OuterEvent>, op: Op, ev: OuterEvent, clocks: Clocks)
    requires AllArrive(inputs, evs, clocks) && Arrives(op, evs, ev, clocks)
    ensures AllArrive(inputs + [op], evs + [ev], clocks)
  {
    hide Arrives;
    var all := evs + [ev];
    forall k | 0 <= k < |all| ensures Arrives((inputs + [op])[k], all[..k], all[k], clocks) {
      assert all[..k] == evs[..k];
    }
  }

  lemma FollowMore(evs: seq<OuterEvent>, ev: OuterEvent, clocks: Clocks)
    ensures AllFollow(evs + [ev], clocks) <==> AllFollow(evs, clocks) && CanFollow(evs, ev, clocks)
  {
    hide CanFollow;
    var all := evs + [ev];
    assert forall k :: 0 <= k < |evs| ==> all[..k] == evs[..k] && all[k] == evs[k];
    assert all[..|evs|] == evs && all[|evs|] == ev;
    if AllFollow(all, clocks) {
      forall k | 0 <= k < |evs| ensures CanFollow(evs[..k], evs[k], clocks) {
        assert CanFollow(all[..k], all[k], clocks);
      }
    }
  }

  lemma {:induction false} TakesAll(evs: seq<OuterEvent>, clocks: Clocks)
    ensures TakeAll(NOTHING, evs, clocks).Some? <==> AllFollow(evs, clocks)
    ensures TakeAll(NOTHING, evs, clocks).Some? ==>
              var t := TakeAll(NOTHING, evs, clocks).value;
              AllArrive(t.inputs, evs, clocks) && forall tid :: Knows(t, evs, tid, clocks)
  {
    if evs != [] {
      hide Knows, TakeOne, AllArrive, AllFollow, CanFollow, Arrives;
      var before, ev := evs[..|evs| - 1], evs[|evs| - 1];
      assert evs == before + [ev];
      TakesAll(before, clocks);
      FollowMore(before, ev, clocks);
      if TakeAll(NOTHING, before, clocks).Some? {
        var m := TakeAll(NOTHING, before, clocks).value;
        FollowsOne(m, before, ev, clocks);
        if TakeOne(m, ev, clocks).Some? {
          TakesOne(m, before, ev, clocks);
        }
      }
    }
  }

  lemma TakesOne(t: Trace, evs: seq<OuterEvent>, ev: OuterEvent, clocks: Clocks)
    requires AllArrive(t.inputs, evs, clocks) && (forall tid :: Knows(t, evs, tid, clocks)) && TakeOne(t, ev, clocks).Some?
    ensures var t1 := TakeOne(t, ev, clocks).value;
            AllArrive(t1.inputs, evs + [ev], clocks) && forall tid :: Knows(t1, evs + [ev], tid, clocks)
  {
    hide Knows, TakeOne, AllArrive, Arrives;
    var t1 := TakeOne(t, ev, clocks).value;
    forall tid ensures Knows(t1, evs + [ev], tid, clocks) {
      KnowsMore(t, evs, ev, tid, clocks);
    }
    ArrivesOne(t, evs, ev, clocks);
    var op :| t1.inputs == t.inputs + [op] && Arrives(op, evs, ev, clocks);
    ArriveMore(t.inputs, evs, op, ev, clocks);
  }

  // ---------- Whole files ----------

  // The bytes behind the magic number can be serialized, but for the order of their events, exactly
  // when each record up to the end can follow those before it, and no death record is torn.
  lemma FileIsTaken(s: seq<byte>, clocks: Clocks)
    ensures TraceFrom(s, NOTHING, clocks).Some? <==> !Torn(s) && AllFollow(BeforeEnd(ReadAll(s).0), clocks)
  {
    TraceOfRecords(s, NOTHING, clocks);
    TakesAll(BeforeEnd(ReadAll(s).0), clocks);
  }

  // Then one input arrives for each of these records, in their order, and a last round is ended
  // behind them; a thread's events are what its buffers decode to.
  lemma FileIsRead(s: seq<byte>, clocks: Clocks)
    requires TraceFrom(s, NOTHING, clocks).Some?
    ensures var t, evs := TraceFrom(s, NOTHING, clocks).value, BeforeEnd(ReadAll(s).0);
            && t.inputs != [] && t.inputs[|t.inputs| - 1] == OpReap && AllArrive(t.inputs[..|t.inputs| - 1], evs, clocks)
            && forall tid :: Decoded(evs, tid, clocks).Some? && ProgramOf(t, tid) == Decoded(evs, tid, clocks).value.0
  {
    TraceOfRecords(s, NOTHING, clocks);
    TakesAll(BeforeEnd(ReadAll(s).0), clocks);
    var t, evs := TraceFrom(s, NOTHING, clocks).value, BeforeEnd(ReadAll(s).0);
    var m := TakeAll(NOTHING, evs, clocks).value;
    assert t.inputs[..|t.inputs| - 1] == m.inputs;
    forall tid ensures Decoded(evs, tid, clocks).Some? && ProgramOf(t, tid) == Decoded(evs, tid, clocks).value.0 {
      assert Knows(m, evs, tid, clocks);
    }
  }

  // ---------- Cut files ----------

  // What was taken in after the first k records.
  lemma {:induction false} TakenSoFar(evs: seq<OuterEvent>, k: nat, clocks: Clocks)
    requires k <= |evs| && TakeAll(NOTHING, evs, clocks).Some?
    ensures TakeAll(NOTHING, evs[..k], clocks).Some?
    ensures var all, part := TakeAll(NOTHING, evs, clocks).value, TakeAll(NOTHING, evs[..k], clocks).value;
            && k <= |all.inputs| == |evs| && part.inputs == all.inputs[..k]
            && Extends(part.prog, all.prog)
    decreases |evs|
  {
    hide TakeIn;
    TakesAll(evs, clocks);
    if k == |evs| {
      assert evs[..k] == evs;
      assert TakeAll(NOTHING, evs, clocks).value.inputs[..k] == TakeAll(NOTHING, evs, clocks).value.inputs;
    } else {
      var before, ev := evs[..|evs| - 1], evs[|evs| - 1];
      assert before[..k] == evs[..k];
      TakenSoFar(before, k, clocks);
      TakesAll(before, clocks);
      var m := TakeAll(NOTHING, before, clocks).value;
      TakenOne(m, ev, clocks);
    }
  }

  lemma TakenOne(t: Trace, ev: OuterEvent, clocks: Clocks)
    requires TakeOne(t, ev, clocks).Some?
    ensures var t1 := TakeOne(t, ev, clocks).value;
            |t1.inputs| == |t.inputs| + 1 && t1.inputs[..|t.inputs|] == t.inputs && Extends(t.prog, t1.prog)
  {
    hide DecodeBufs;
  }

  lemma {:induction false} CompleteIsPrefix(evs: seq<OuterEvent>, n: nat)
    requires forall ev :: ev in evs ==> Writable(ev)
    ensures Complete(evs, n) <= evs
  {
    hide Record, Writable;
    if evs != [] && n >= |Record(evs[0])| {
      CompleteIsPrefix(evs[1..], n - |Record(evs[0])|);
    }
  }

  lemma {:induction false} BeforeEndOfPrefix(xs: seq<OuterEvent>, ys: seq<OuterEvent>)
    requires xs <= ys
    ensures BeforeEnd(xs) <= BeforeEnd(ys)
  {
    if xs != [] && !xs[0].End? {
      BeforeEndOfPrefix(xs[1..], ys[1..]);
    }
  }

  lemma WholeFile(evs: seq<OuterEvent>)
    requires forall ev :: ev in evs ==> Writable(ev)
    ensures ReadAll(FileOf(evs)) == (evs, false)
  {
    var s := FileOf(evs);
    assert s[..|s|] == s;
    CutFile(evs, |s|);
    AllComplete(evs);
  }

  lemma {:induction false} AllComplete(evs: seq<OuterEvent>)
    requires forall ev :: ev in evs ==> Writable(ev)
    ensures Complete(evs, |FileOf(evs)|) == evs && !EndsInDeath(evs, |FileOf(evs)|)
  {
    if evs != [] {
      AllComplete(evs[1..]);
    }
  }

  // A file that can be serialized can be serialized wherever it is cut, except inside a death record,
  // behind its first word and before an end record.  What arrives is then the part for the records
  // that are complete, with a round ended behind them.
  lemma CutFileIsTaken(evs: seq<OuterEvent>, n: nat, clocks: Clocks)
    requires (forall ev :: ev in evs ==> Writable(ev)) && n <= |FileOf(evs)|
    requires TraceFrom(FileOf(evs), NOTHING, clocks).Some?
    ensures var whole, cut := TraceFrom(FileOf(evs), NOTHING, clocks).value, TraceFrom(FileOf(evs)[..n], NOTHING, clocks);
            var k := |BeforeEnd(Complete(evs, n))|;
            && (cut.Some? <==> !EndsInDeath(evs, n) || End in Complete(evs, n))
            && (cut.Some? ==> k < |whole.inputs| && cut.value.inputs == whole.inputs[..k] + [OpReap])
            && (cut.Some? && WellFormed(whole.prog) ==> WellFormed(cut.value.prog))
  {
    hide TraceFrom, TakeAll, Complete, EndsInDeath, FileOf, BeforeEnd, WellFormed, ReadAll, Writable;
    var file := FileOf(evs);
    var part := BeforeEnd(Complete(evs, n));
    WholeFile(evs);
    CutFile(evs, n);
    TraceOfRecords(file, NOTHING, clocks);
    TraceOfRecords(file[..n], NOTHING, clocks);
    CompleteIsPrefix(evs, n);
    BeforeEndOfPrefix(Complete(evs, n), evs);
    assert part == BeforeEnd(evs)[..|part|];
    TakenSoFar(BeforeEnd(evs), |part|, clocks);
    if TraceFrom(file[..n], NOTHING, clocks).Some? && WellFormed(TraceFrom(file, NOTHING, clocks).value.prog) {
      PartIsWellFormed(TraceFrom(file[..n], NOTHING, clocks).value.prog, TraceFrom(file, NOTHING, clocks).value.prog);
    }
  }
}
