/** The outer records of a trace file: buffers, deaths and barriers. */
module OuterStream {
  import opened Wrappers
  import opened Words
  import opened Varint
  import opened TraceCodec
  import opened MemStreams

  datatype OuterEvent =
    | Buffer(tid: u64, ts: u64, cpu: u64, bytes: seq<byte>)
    | Death(tid: u64, ts: u64, cpu: u64)
    | End
    | SyncBarrier(ts: u64, cpu: u64)

  datatype Outer =
    | More(ev: OuterEvent, rest: seq<byte>)
    | NoMore
    | Panic

  // ---------- Reading ----------

  // What the next record of a file is.
  function ReadOuter(s: seq<byte>): (r: Outer)
    ensures r.More? ==> |r.rest| < |s|
  {
    match Parse(s)
    case None => NoMore
    case Some(first) => ReadRest(first.value, s[first.advance..])
  }

  // The rest of a record, behind its first word.
  function ReadRest(first: u64, s1: seq<byte>): (r: Outer)
    ensures r.More? ==> |r.rest| <= |s1|
  {
    var kind := DecodeType(first);
    if kind == EVENT_END then More(End, s1)
    else if kind == EVENT_DEATH then
      match Parse(s1)
      case None => Panic
      case Some(second) => More(DeathOf(first, second.value), s1[second.advance..])
    else if kind == EVENT_SYNC_BARRIER then
      match Parse(s1)
      case None => NoMore
      case Some(second) => More(BarrierOf(second.value), s1[second.advance..])
    else if kind == EVENT_BUF then
      match Parse(s1)
      case None => NoMore
      case Some(second) => ReadBuffer(first, second.value, s1[second.advance..])
    else Panic
  }

  function DeathOf(first: u64, second: u64): OuterEvent {
    Death(first / 256, UnbundleTs(second), UnbundleCpu(second))
  }

  function BarrierOf(second: u64): OuterEvent {
    SyncBarrier(UnbundleTs(second), UnbundleCpu(second))
  }

  function BufferOf(first: u64, second: u64, bytes: seq<byte>): OuterEvent {
    Buffer(first / 8, UnbundleTs(second), UnbundleCpu(second), bytes)
  }

  function ReadBuffer(first: u64, second: u64, s2: seq<byte>): (r: Outer)
    ensures r.More? ==> |r.rest| <= |s2|
  {
    match Parse(s2)
    case None => NoMore
    case Some(third) =>
      var s3 := s2[third.advance..];
      if |s3| < third.value then NoMore
      else More(BufferOf(first, second, s3[..third.value]), s3[third.value..])
  }

  // The reader of the trace file: what it returns is the next record of the bytes that are left.
  method Next(s: MemStream, junk: seq<byte>) returns (r: Option<OuterEvent>, panicked: bool)
    requires s.Valid() && |junk| == MAX_SIZE
    modifies s
    ensures s.Valid()
    ensures match ReadOuter(old(s.Rest()))
            case More(ev, rest) => r == Some(ev) && !panicked && s.Rest() == rest
            case NoMore => r == None && !panicked && s.Rest() == []
            case Panic => panicked
  {
    hide ReadRest;
    r, panicked := None, false;
    ghost var bytes := s.Rest();
    var more := s.HasMore();
    if !more {
      return;
    }
    var first := s.TryReadVarint(junk);
    if first == None {
      return;
    }
    assert s.Rest() == bytes[Parse(bytes).value.advance..];
    r, panicked := NextRest(s, first.value, junk);
  }

  method NextRest(s: MemStream, first: u64, junk: seq<byte>) returns (r: Option<OuterEvent>, panicked: bool)
    requires s.Valid() && |junk| == MAX_SIZE
    modifies s
    ensures s.Valid()
    ensures match ReadRest(first, old(s.Rest()))
            case More(ev, rest) => r == Some(ev) && !panicked && s.Rest() == rest
            case NoMore => r == None && !panicked && s.Rest() == []
            case Panic => panicked
  {
    hide Parse, DecodeType;
    r, panicked := None, false;
    var kind := DecodeType(first);
    if kind == EVENT_DEATH {
      var second, p := s.MustReadVarint(junk);
      if p {
        panicked := true;
        return;
      }
      r := Some(DeathOf(first, second));
    } else if kind == EVENT_BUF {
      var second := s.TryReadVarint(junk);
      if second == None {
        return;
      }
      r := NextBuffer(s, first, second.value, junk);
    } else if kind == EVENT_END {
      r := Some(End);
    } else if kind == EVENT_SYNC_BARRIER {
      var second := s.TryReadVarint(junk);
      if second == None {
        return;
      }
      r := Some(BarrierOf(second.value));
    } else {
      panicked := true;
    }
  }

  method NextBuffer(s: MemStream, first: u64, second: u64, junk: seq<byte>) returns (r: Option<OuterEvent>)
    requires s.Valid() && |junk| == MAX_SIZE
    modifies s
    ensures s.Valid()
    ensures match ReadBuffer(first, second, old(s.Rest()))
            case More(ev, rest) => r == Some(ev) && s.Rest() == rest
            case NoMore => r == None && s.Rest() == []
            case Panic => false
  {
    hide Parse;
    r := None;
    ghost var bytes := s.Rest();
    var third := s.TryReadVarint(junk);
    if third == None {
      return;
    }
    ghost var s3 := bytes[Parse(bytes).value.advance..];
    assert s.Rest() == s3;
    var start := s.TryAdvanceBy(third.value);
    if start == None {
      return;
    }
    assert s3[..third.value] == s.data[start.value..start.value + third.value];
    assert s3[third.value..] == s.Rest();
    r := Some(BufferOf(first, second, s.data[start.value..start.value + third.value]));
  }

  // ---------- Writing ----------

  // The words of a record; a buffer's bytes follow its words.
  function HeaderOf(ev: OuterEvent): seq<u64>
    requires ev.Buffer? ==> |ev.bytes| < TWO64
  {
    match ev
    case Buffer(tid, ts, cpu, bytes) => [Tagged(tid, EVENT_BUF), Bundle(ts, cpu), |bytes|]
    case Death(tid, ts, cpu) => [TaggedExt(tid, EVENT_DEATH), Bundle(ts, cpu)]
    case End => [EVENT_END]
    case SyncBarrier(ts, cpu) => [EVENT_SYNC_BARRIER, Bundle(ts, cpu)]
  }

  function Payload(ev: OuterEvent): seq<byte> {
    if ev.Buffer? then ev.bytes else []
  }

  // What can be written without losing bits; times are multiples of 1024, cpus are below that.
  predicate Writable(ev: OuterEvent) {
    match ev
    case Buffer(tid, ts, cpu, bytes) => tid < TWO64 / 8 && ts % 1024 == 0 && cpu < 1024 && |bytes| < TWO64
    case Death(tid, ts, cpu) => tid < TWO64 / 256 && ts % 1024 == 0 && cpu < 1024
    case End => true
    case SyncBarrier(ts, cpu) => ts % 1024 == 0 && cpu < 1024
  }

  function Record(ev: OuterEvent): seq<byte>
    requires Writable(ev)
  {
    EncodeAll(HeaderOf(ev)) + Payload(ev)
  }

  // ---------- Whole and cut files ----------

  function FileOf(evs: seq<OuterEvent>): seq<byte>
    requires forall ev :: ev in evs ==> Writable(ev)
  {
    if evs == [] then [] else Record(evs[0]) + FileOf(evs[1..])
  }

  // All records up to the end of the file, and whether reading ended in a panic.
  function ReadAll(s: seq<byte>): (seq<OuterEvent>, bool)
    decreases |s|
  {
    match ReadOuter(s)
    case NoMore => ([], false)
    case Panic => ([], true)
    case More(ev, rest) => var (evs, panic) := ReadAll(rest); ([ev] + evs, panic)
  }

  // The records that are complete in the first n bytes.
  function Complete(evs: seq<OuterEvent>, n: nat): seq<OuterEvent>
    requires forall ev :: ev in evs ==> Writable(ev)
  {
    if evs == [] || n < |Record(evs[0])| then []
    else [evs[0]] + Complete(evs[1..], n - |Record(evs[0])|)
  }

  // The first n bytes end in a death record, behind its first word.
  predicate EndsInDeath(evs: seq<OuterEvent>, n: nat)
    requires forall ev :: ev in evs ==> Writable(ev)
  {
    if evs == [] then false
    else if n < |Record(evs[0])| then CutInDeath(evs[0], n)
    else EndsInDeath(evs[1..], n - |Record(evs[0])|)
  }

  predicate CutInDeath(ev: OuterEvent, n: nat)
    requires Writable(ev)
  {
    ev.Death? && n >= |Encoded(HeaderOf(ev)[0])|
  }

  // A varint at the head of a cut file.
  lemma ParseCut(c: seq<byte>, w: u64, t: seq<byte>, n: nat)
    requires IsCode(c, w) && n <= |c + t|
    ensures n < |c| ==> Parse((c + t)[..n]) == None
    ensures n >= |c| ==> Parse((c + t)[..n]) == Some(Decoded(|c|, w)) && (c + t)[..n][|c|..] == t[..n - |c|]
  {
    if n < |c| {
      ParseNeedsAll(c + t, n);
    } else {
      assert (c + t)[..n] == c + t[..n - |c|];
    }
  }

  // What reading the first n bytes of a record of length len and what follows it gives.
  function CutResult(ev: OuterEvent, len: nat, t: seq<byte>, n: nat, panic: bool): Outer
    requires n <= len + |t|
  {
    if n >= len then More(ev, t[..n - len]) else if panic then Panic else NoMore
  }

  // A record of two words, given their encodings.
  lemma DeathCut(cw: seq<byte>, cv: seq<byte>, w: u64, v: u64, t: seq<byte>, n: nat)
    requires IsCode(cw, w) && IsCode(cv, v) && DecodeType(w) == EVENT_DEATH && n <= |cw| + |cv| + |t|
    ensures ReadOuter((cw + (cv + t))[..n]) == CutResult(DeathOf(w, v), |cw| + |cv|, t, n, n >= |cw|)
  {
    hide Parse, DecodeType;
    ParseCut(cw, w, cv + t, n);
    if n >= |cw| {
      ParseCut(cv, v, t, n - |cw|);
    }
  }

  lemma BarrierCut(cw: seq<byte>, cv: seq<byte>, w: u64, v: u64, t: seq<byte>, n: nat)
    requires IsCode(cw, w) && IsCode(cv, v) && DecodeType(w) == EVENT_SYNC_BARRIER && n <= |cw| + |cv| + |t|
    ensures ReadOuter((cw + (cv + t))[..n]) == CutResult(BarrierOf(v), |cw| + |cv|, t, n, false)
  {
    hide Parse, DecodeType;
    ParseCut(cw, w, cv + t, n);
    if n >= |cw| {
      ParseCut(cv, v, t, n - |cw|);
    }
  }

  lemma EndCut(cw: seq<byte>, w: u64, t: seq<byte>, n: nat)
    requires IsCode(cw, w) && DecodeType(w) == EVENT_END && n <= |cw| + |t|
    ensures ReadOuter((cw + t)[..n]) == CutResult(End, |cw|, t, n, false)
  {
    hide Parse, DecodeType;
    ParseCut(cw, w, t, n);
  }

  lemma PayloadCut(first: u64, second: u64, cu: seq<byte>, bytes: seq<byte>, t: seq<byte>, n: nat)
    requires |bytes| < TWO64 && IsCode(cu, |bytes|) && n <= |cu| + |bytes| + |t|
    ensures ReadBuffer(first, second, (cu + (bytes + t))[..n]) ==
            CutResult(BufferOf(first, second, bytes), |cu| + |bytes|, t, n, false)
  {
    hide Parse, DecodeType;
    ParseCut(cu, |bytes|, bytes + t, n);
    if n >= |cu| + |bytes| {
      var s3 := (bytes + t)[..n - |cu|];
      assert s3[..|bytes|] == bytes;
      assert s3[|bytes|..] == t[..n - |cu| - |bytes|];
    }
  }

  lemma BufferRestCut(cv: seq<byte>, cu: seq<byte>, w: u64, v: u64, bytes: seq<byte>, t: seq<byte>, n: nat)
    requires |bytes| < TWO64 && IsCode(cv, v) && IsCode(cu, |bytes|) && DecodeType(w) == EVENT_BUF
    requires n <= |cv| + |cu| + |bytes| + |t|
    ensures ReadRest(w, (cv + (cu + (bytes + t)))[..n]) ==
            CutResult(BufferOf(w, v, bytes), |cv| + |cu| + |bytes|, t, n, false)
  {
    hide Parse, DecodeType;
    ParseCut(cv, v, cu + (bytes + t), n);
    if n >= |cv| {
      PayloadCut(w, v, cu, bytes, t, n - |cv|);
    }
  }

  lemma BufferCut(cw: seq<byte>, cv: seq<byte>, cu: seq<byte>, w: u64, v: u64, bytes: seq<byte>, t: seq<byte>, n: nat)
    requires |bytes| < TWO64 && IsCode(cw, w) && IsCode(cv, v) && IsCode(cu, |bytes|) && DecodeType(w) == EVENT_BUF
    requires n <= |cw| + |cv| + |cu| + |bytes| + |t|
    ensures ReadOuter((cw + (cv + (cu + (bytes + t))))[..n]) ==
            CutResult(BufferOf(w, v, bytes), |cw| + |cv| + |cu| + |bytes|, t, n, false)
  {
    hide Parse, DecodeType, ReadBuffer;
    ParseCut(cw, w, cv + (cu + (bytes + t)), n);
    if n >= |cw| {
      BufferRestCut(cv, cu, w, v, bytes, t, n - |cw|);
    }
  }

  // A file cut anywhere yields the records that are complete, in order, and then nothing; except
  // that a death record cut behind its first word is a panic.
  lemma {:induction false} CutFile(evs: seq<OuterEvent>, n: nat)
    requires forall ev :: ev in evs ==> Writable(ev)
    requires n <= |FileOf(evs)|
    ensures ReadAll(FileOf(evs)[..n]) == (Complete(evs, n), EndsInDeath(evs, n))
  {
    if evs != [] {
      var ev, t := evs[0], FileOf(evs[1..]);
      RecordCut(ev, t, n);
      if n >= |Record(ev)| {
        CutFile(evs[1..], n - |Record(ev)|);
      }
    }
  }

  lemma RecordCut(ev: OuterEvent, t: seq<byte>, n: nat)
    requires Writable(ev) && n <= |Record(ev)| + |t|
    ensures ReadOuter((Record(ev) + t)[..n]) == CutResult(ev, |Record(ev)|, t, n, CutInDeath(ev, n))
  {
    match ev
    case Buffer(_, _, _, _) => BufferRecordCut(ev, t, n);
    case Death(_, _, _) => DeathRecordCut(ev, t, n);
    case End =>
      OneWord(EVENT_END);
      EncodedIsCode(EVENT_END);
      NothingMore(Encoded(EVENT_END));
      EndCut(Encoded(EVENT_END), EVENT_END, t, n);
    case SyncBarrier(_, _) => BarrierRecordCut(ev, t, n);
  }

  lemma BufferLayout(ev: OuterEvent, t: seq<byte>)
    requires ev.Buffer? && Writable(ev)
    ensures var h := HeaderOf(ev); var cw, cv, cu := Encoded(h[0]), Encoded(h[1]), Encoded(h[2]);
            && Record(ev) + t == cw + (cv + (cu + (ev.bytes + t)))
            && |Record(ev)| == |cw| + |cv| + |cu| + |ev.bytes|
  {
    var h := HeaderOf(ev);
    var cw, cv, cu := Encoded(h[0]), Encoded(h[1]), Encoded(h[2]);
    ThreeWords(h[0], h[1], h[2]);
    Assoc(cw + (cv + cu), ev.bytes, t);
    Assoc(cw, cv + cu, ev.bytes + t);
    Assoc(cv, cu, ev.bytes + t);
  }

  lemma TwoWordLayout(ev: OuterEvent, t: seq<byte>)
    requires Writable(ev) && (ev.Death? || ev.SyncBarrier?)
    ensures var h := HeaderOf(ev); var cw, cv := Encoded(h[0]), Encoded(h[1]);
            Record(ev) + t == cw + (cv + t) && |Record(ev)| == |cw| + |cv|
  {
    var h := HeaderOf(ev);
    var cw, cv := Encoded(h[0]), Encoded(h[1]);
    TwoWords(h[0], h[1]);
    NothingMore(cw + cv);
    Assoc(cw, cv, t);
  }

  // The words of a record tell what it is.
  lemma HeaderRead(ev: OuterEvent)
    requires Writable(ev)
    ensures var h := HeaderOf(ev);
            match ev
            case Buffer(_, _, _, bytes) => DecodeType(h[0]) == EVENT_BUF && BufferOf(h[0], h[1], bytes) == ev
            case Death(_, _, _) => DecodeType(h[0]) == EVENT_DEATH && DeathOf(h[0], h[1]) == ev
            case End => DecodeType(h[0]) == EVENT_END
            case SyncBarrier(_, _) => DecodeType(h[0]) == EVENT_SYNC_BARRIER && BarrierOf(h[1]) == ev
  {
    match ev
    case Buffer(tid, ts, cpu, _) =>
      TagRoundTrip(tid, EVENT_BUF);
      BundleRoundTrip(ts, cpu);
    case Death(tid, ts, cpu) =>
      ExtTagRoundTrip(tid, EVENT_DEATH);
      BundleRoundTrip(ts, cpu);
    case End =>
    case SyncBarrier(ts, cpu) => BundleRoundTrip(ts, cpu);
  }

  lemma BufferRecordCut(ev: OuterEvent, t: seq<byte>, n: nat)
    requires ev.Buffer? && Writable(ev) && n <= |Record(ev)| + |t|
    ensures ReadOuter((Record(ev) + t)[..n]) == CutResult(ev, |Record(ev)|, t, n, false)
  {
    var h := HeaderOf(ev);
    HeaderRead(ev);
    BufferLayout(ev, t);
    EncodedIsCode(h[0]);
    EncodedIsCode(h[1]);
    EncodedIsCode(h[2]);
    BufferCut(Encoded(h[0]), Encoded(h[1]), Encoded(h[2]), h[0], h[1], ev.bytes, t, n);
  }

  lemma DeathRecordCut(ev: OuterEvent, t: seq<byte>, n: nat)
    requires ev.Death? && Writable(ev) && n <= |Record(ev)| + |t|
    ensures ReadOuter((Record(ev) + t)[..n]) == CutResult(ev, |Record(ev)|, t, n, CutInDeath(ev, n))
  {
    var h := HeaderOf(ev);
    HeaderRead(ev);
    TwoWordLayout(ev, t);
    EncodedIsCode(h[0]);
    EncodedIsCode(h[1]);
    DeathCut(Encoded(h[0]), Encoded(h[1]), h[0], h[1], t, n);
  }

  lemma BarrierRecordCut(ev: OuterEvent, t: seq<byte>, n: nat)
    requires ev.SyncBarrier? && Writable(ev) && n <= |Record(ev)| + |t|
    ensures ReadOuter((Record(ev) + t)[..n]) == CutResult(ev, |Record(ev)|, t, n, false)
  {
    var h := HeaderOf(ev);
    HeaderRead(ev);
    TwoWordLayout(ev, t);
    EncodedIsCode(h[0]);
    EncodedIsCode(h[1]);
    BarrierCut(Encoded(h[0]), Encoded(h[1]), h[0], h[1], t, n);
  }
}
