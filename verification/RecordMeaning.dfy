/** Which token and which clock each record of a thread stands for. */
module RecordMeanings {
  import opened Words
  import opened Events
  import opened TraceCodec
  import opened ThreadCodec
  import opened SerializeTraces
  import opened Sessions

  predicate IsAllocation(e: Traced) {
    e.TMalloc? || e.TMemalign? || e.TRealloc?
  }

  function Allocations(es: seq<Traced>): nat {
    if es == [] then 0 else Allocations(es[1..]) + if IsAllocation(es[0]) then 1 else 0
  }

  // How many of the records are events: all but the token records.
  function EventCount(es: seq<Traced>): nat {
    if es == [] then 0 else EventCount(es[1..]) + if es[0].TTok? then 0 else 1
  }

  predicate NoTokens(es: seq<Traced>) {
    forall e :: e in es ==> !e.TTok?
  }

  // The last token record.
  predicate IsLastToken(es: seq<Traced>, j: nat) {
    j < |es| && es[j].TTok? && NoTokens(es[j + 1..])
  }

  // The n-th token after base.
  function TokenAfter(base: u64, n: nat): u64 {
    (base + n) % 0x1_0000_0000_0000_0000
  }

  // The token that comes next after the records: tokens count on from the last token record, or from
  // the one the thread began with.
  ghost predicate ComesTo(tok: Token, es: seq<Traced>, first: u64) {
    && (NoTokens(es) ==> tok == TokenAfter(first, Allocations(es)))
    && forall j: nat | IsLastToken(es, j) :: tok == TokenAfter(es[j].base, Allocations(es[j + 1..]))
  }

  // The clock after the records: that of the last token record, or the one they began with.
  ghost predicate ClockIs(ts: int, cpu: int, es: seq<Traced>, ts0: u64, cpu0: u64) {
    && (NoTokens(es) ==> ts == ts0 && cpu == cpu0)
    && forall j: nat | IsLastToken(es, j) :: ts == es[j].ts - es[j].ts % 1024 && cpu == es[j].cpu % 1024
  }

  // n is the event of record e behind the records before.
  ghost predicate Stands(n: Event, e: Traced, before: seq<Traced>, first: u64) {
    match e
    case TMalloc(size) => n.Malloc? && ComesTo(n.tok, before, first) && n.size == RoundUp(size)
    case TMemalign(size, align) =>
      n.Memalign? && ComesTo(n.tok, before, first) && n.size == RoundUp(size) && n.align == align
    case TRealloc(oldTok, size) =>
      n.Realloc? && ComesTo(n.newTok, before, first) && n.oldTok == oldTok && n.newSize == RoundUp(size)
    case TFree(tok) => n == Free(tok)
    case TFreeSized(tok) => n == FreeSized(tok)
    case TTok(_, _, _) => false
  }

  // ---------- What a decoder has come to ----------

  lemma OneMoreToken(base: u64, n: nat)
    ensures TokenAfter(TokenAfter(base, 1), n) == TokenAfter(base, 1 + n)
  {
    if base == 0xFFFF_FFFF_FFFF_FFFF {
      assert base + 1 + n == n + 0x1_0000_0000_0000_0000;
    }
  }

  lemma {:induction false} CountsOn(es: seq<Traced>, d: DecState)
    requires NoTokens(es)
    ensures After(es, d).tokSeq == TokenAfter(d.tokSeq, Allocations(es))
    ensures After(es, d).ts == d.ts && After(es, d).cpu == d.cpu
  {
    if es != [] {
      assert es[0] in es;
      CountsOn(es[1..], Meaning(es[0], d).1);
      OneMoreToken(d.tokSeq, Allocations(es[1..]));
    }
  }

  lemma {:induction false} AfterConcat(xs: seq<Traced>, ys: seq<Traced>, d: DecState)
    ensures After(xs + ys, d) == After(ys, After(xs, d))
  {
    if xs == [] {
      assert xs + ys == ys;
    } else {
      assert (xs + ys)[1..] == xs[1..] + ys;
      AfterConcat(xs[1..], ys, Meaning(xs[0], d).1);
    }
  }

  lemma AfterLastToken(es: seq<Traced>, d: DecState, j: nat)
    requires IsLastToken(es, j)
    ensures After(es, d).tokSeq == TokenAfter(es[j].base, Allocations(es[j + 1..]))
    ensures After(es, d).ts == es[j].ts - es[j].ts % 1024 && After(es, d).cpu == es[j].cpu % 1024
  {
    var mid := After(es[..j], d);
    assert es == es[..j] + es[j..] && es[j..][0] == es[j] && es[j..][1..] == es[j + 1..];
    AfterConcat(es[..j], es[j..], d);
    CountsOn(es[j + 1..], Meaning(es[j], mid).1);
  }

  lemma AfterComesTo(es: seq<Traced>, d: DecState)
    ensures ComesTo(After(es, d).tokSeq, es, d.tokSeq)
    ensures ClockIs(After(es, d).ts, After(es, d).cpu, es, d.ts, d.cpu)
  {
    hide After;
    if NoTokens(es) {
      CountsOn(es, d);
    }
    forall j: nat | IsLastToken(es, j)
      ensures After(es, d).tokSeq == TokenAfter(es[j].base, Allocations(es[j + 1..]))
      ensures After(es, d).ts == es[j].ts - es[j].ts % 1024 && After(es, d).cpu == es[j].cpu % 1024
    {
      AfterLastToken(es, d, j);
    }
  }

  // ---------- Records of a buffer ----------

  lemma {:induction false} CountOfEvents(es: seq<Traced>, d: DecState)
    ensures |EventsOf(es, d)| == EventCount(es)
  {
    if es != [] {
      CountOfEvents(es[1..], Meaning(es[0], d).1);
    }
  }

  lemma EventOfFirst(es: seq<Traced>, d: DecState, before: seq<Traced>, first: u64)
    requires es != [] && !es[0].TTok? && ComesTo(d.tokSeq, before, first)
    ensures EventsOf(es, d) != [] && EventsOf(es, d)[0].ts == d.ts && EventsOf(es, d)[0].cpu == d.cpu
    ensures Stands(EventsOf(es, d)[0].ev, es[0], before, first)
  {
    hide ComesTo, RoundUp;
  }

  // Behind the events of the first k records are those of the rest.
  lemma FromRecord(es: seq<Traced>, k: nat, d: DecState)
    requires k <= |es|
    ensures EventCount(es[..k]) <= |EventsOf(es, d)|
    ensures EventsOf(es, d)[EventCount(es[..k])..] == EventsOf(es[k..], After(es[..k], d))
  {
    hide EventsOf, After, EventCount;
    assert es == es[..k] + es[k..];
    EventsConcat(es[..k], es[k..], d);
    CountOfEvents(es[..k], d);
  }

  // Record k of a buffer, behind other records of the thread: the decoder is in state d, with the
  // token that comes after those.
  lemma RecordMeans(es: seq<Traced>, k: nat, d: DecState, earlier: seq<Traced>, first: DecState)
    requires k < |es| && !es[k].TTok? && SameButClock(d, After(earlier, first))
    ensures var i := EventCount(es[..k]);
            && i < |EventsOf(es, d)|
            && Stands(EventsOf(es, d)[i].ev, es[k], earlier + es[..k], first.tokSeq)
            && ClockIs(EventsOf(es, d)[i].ts, EventsOf(es, d)[i].cpu, es[..k], d.ts, d.cpu)
  {
    hide ComesTo, ClockIs, Stands, EventsOf, After, EventCount;
    var mid := After(es[..k], d);
    FromRecord(es, k, d);
    AfterComesTo(es[..k], d);
    ClockFree(es[..k], d, After(earlier, first));
    AfterConcat(earlier, es[..k], first);
    AfterComesTo(earlier + es[..k], first);
    EventOfFirst(es[k..], mid, earlier + es[..k], first.tokSeq);
  }

  // ---------- Records of a thread ----------

  // The clock a thread has when it comes to chunk m: that of the hand-over before.
  function ClockBefore(cs: seq<Chunk>, m: nat, ts0: u64, cpu0: u64): (u64, u64)
    requires m <= |cs|
  {
    if m == 0 then (ts0, cpu0) else (cs[m - 1].ts, cs[m - 1].cpu)
  }

  lemma {:induction false} ChunksConcat(xs: seq<Chunk>, ys: seq<Chunk>, d: DecState)
    ensures EventsOfChunks(xs + ys, d) == EventsOfChunks(xs, d) + EventsOfChunks(ys, AfterChunks(xs, d))
  {
    if xs == [] {
      assert xs + ys == ys;
    } else {
      assert (xs + ys)[1..] == xs[1..] + ys;
      ChunksConcat(xs[1..], ys, AfterChunk(xs[0], d));
    }
  }

  lemma {:induction false} AfterAllOf(cs: seq<Chunk>, d: DecState, f: DecState)
    requires SameButClock(d, f)
    ensures SameButClock(AfterChunks(cs, d), After(AllOf(cs), f))
    ensures |EventsOfChunks(cs, d)| == EventCount(AllOf(cs))
    ensures (AfterChunks(cs, d).ts, AfterChunks(cs, d).cpu) == ClockBefore(cs, |cs|, d.ts, d.cpu)
  {
    if cs != [] {
      ClockFree(cs[0].es, d, f);
      AfterConcat(cs[0].es, AllOf(cs[1..]), f);
      CountOfEvents(cs[0].es, d);
      CountConcat(cs[0].es, AllOf(cs[1..]));
      AfterAllOf(cs[1..], AfterChunk(cs[0], d), After(cs[0].es, f));
    }
  }

  lemma {:induction false} CountConcat(xs: seq<Traced>, ys: seq<Traced>)
    ensures EventCount(xs + ys) == EventCount(xs) + EventCount(ys)
  {
    if xs == [] {
      assert xs + ys == ys;
    } else {
      assert (xs + ys)[1..] == xs[1..] + ys;
      CountConcat(xs[1..], ys);
    }
  }

  // Record k of chunk m: tokens count on through all the chunks before, while the clock starts anew
  // with the hand-over before.
  lemma ChunkRecordMeans(cs: seq<Chunk>, m: nat, k: nat, d: DecState)
    requires m < |cs| && k < |cs[m].es| && !cs[m].es[k].TTok?
    ensures var before, (ts, cpu) := AllOf(cs[..m]) + cs[m].es[..k], ClockBefore(cs, m, d.ts, d.cpu);
            var i := EventCount(before);
            && i < |EventsOfChunks(cs, d)|
            && Stands(EventsOfChunks(cs, d)[i].ev, cs[m].es[k], before, d.tokSeq)
            && ClockIs(EventsOfChunks(cs, d)[i].ts, EventsOfChunks(cs, d)[i].cpu, cs[m].es[..k], ts, cpu)
  {
    hide ComesTo, ClockIs, Stands, EventsOf, After, AfterChunks, AllOf, EventCount;
    var es, mid, all := cs[m].es, AfterChunks(cs[..m], d), AllOf(cs[..m]);
    assert cs == cs[..m] + cs[m..] && cs[m..][0] == cs[m];
    ChunksConcat(cs[..m], cs[m..], d);
    AfterAllOf(cs[..m], d, d);
    CountConcat(all, es[..k]);
    RecordMeans(es, k, mid, all, d);
    assert EventsOfChunks(cs[m..], mid)[EventCount(es[..k])] == EventsOf(es, mid)[EventCount(es[..k])];
  }

  // In a session: every thread's tokens start at zero.
  lemma SessionRecordMeans(items: seq<Item>, clocks: Clocks, tid: Tid, m: nat, k: nat)
    requires var cs := ChunksOf(items, tid); m < |cs| && k < |cs[m].es| && !cs[m].es[k].TTok?
    ensures var cs, evs := ChunksOf(items, tid), EventsOfThread(items, clocks, tid);
            var before := AllOf(cs[..m]) + cs[m].es[..k];
            var i := EventCount(before);
            && i < |evs|
            && Stands(evs[i].ev, cs[m].es[k], before, 0)
            && (m > 0 ==> ClockIs(evs[i].ts, evs[i].cpu, cs[m].es[..k], cs[m - 1].ts, cs[m - 1].cpu))
  {
    hide ComesTo, ClockIs, Stands, AllOf, EventCount, EventsOfChunks;
    ChunkRecordMeans(ChunksOf(items, tid), m, k, DecoderFor(NOTHING, tid, clocks));
  }
}
