/** A thread of the traced program: its undelivered buffers and the event at their head. */
module ThreadStates {
  import opened Wrappers
  import opened Words
  import opened Events
  import opened Varint
  import opened TraceCodec
  import opened ThreadCodec
  import opened MemStreams

  // ---------- What reading on gives ----------

  datatype NextRead =
    | Broken
    | Exhausted(after: DecState)
    | Event(ev: Events.Event, rest: seq<byte>, after: DecState)

  // The next event of a buffer, past any token records.
  function ReadNext(s: seq<byte>, d: DecState): NextRead
    decreases |s|
  {
    if s == [] then Exhausted(d)
    else match ReadInner(s, d)
      case Bad => Broken
      case Tick(rest, after) => ReadNext(rest, after)
      case Got(ev, rest, after) => Event(ev, rest, after)
  }

  datatype Refilled =
    | Stuck
    | Drained(after: DecState)
    | Found(ev: Events.Event, rest: seq<byte>, bufs: seq<Buf>, after: DecState)

  // The next event of a queue of buffers, when s is left of the first one.
  function Refill(s: seq<byte>, bufs: seq<Buf>, d: DecState): Refilled
    requires bufs != []
    decreases |bufs|
  {
    match ReadNext(s, d)
    case Broken => Stuck
    case Event(ev, rest, after) => Found(ev, rest, bufs, after)
    case Exhausted(after) =>
      if |bufs| == 1 then Drained(Leave(after, bufs[0])) else Refill(bufs[1].bytes, bufs[1..], Leave(after, bufs[0]))
  }

  // The queue when s is left of its first buffer.
  function Remaining(s: seq<byte>, bufs: seq<Buf>): seq<Buf>
    requires bufs != []
  {
    [bufs[0].(bytes := s)] + bufs[1..]
  }

  lemma {:induction false} ReadNextDecodes(s: seq<byte>, d: DecState)
    ensures match ReadNext(s, d)
            case Broken => DecodeStream(s, d) == None
            case Exhausted(after) => DecodeStream(s, d) == Some(([], after))
            case Event(ev, rest, after) =>
              DecodeStream(s, d) == Continue([Timed(ev, after.ts, after.cpu)], DecodeStream(rest, after))
    decreases |s|
  {
    if s != [] && ReadInner(s, d).Tick? {
      ReadNextDecodes(ReadInner(s, d).rest, ReadInner(s, d).after);
    }
  }

  lemma RemainingDecodes(s: seq<byte>, bufs: seq<Buf>, d: DecState)
    requires bufs != []
    ensures DecodeBufs(Remaining(s, bufs), d) ==
            match DecodeStream(s, d)
            case None => None
            case Some((evs, mid)) => Continue(evs, DecodeBufs(bufs[1..], Leave(mid, bufs[0])))
  {
    assert Remaining(s, bufs)[1..] == bufs[1..];
  }

  // Reading on takes the first of the events that the whole queue decodes to.
  lemma {:induction false} RefillDecodes(s: seq<byte>, bufs: seq<Buf>, d: DecState)
    requires bufs != []
    ensures match Refill(s, bufs, d)
            case Stuck => DecodeBufs(Remaining(s, bufs), d) == None
            case Drained(after) => DecodeBufs(Remaining(s, bufs), d) == Some(([], after))
            case Found(ev, rest, left, after) =>
              left != [] &&
              DecodeBufs(Remaining(s, bufs), d) ==
              Continue([Timed(ev, after.ts, after.cpu)], DecodeBufs(Remaining(rest, left), after))
    decreases |bufs|
  {
    ReadNextDecodes(s, d);
    match ReadNext(s, d)
    case Broken => RemainingDecodes(s, bufs, d);
    case Event(ev, rest, after) => FoundDecodes(s, Timed(ev, after.ts, after.cpu), rest, bufs, d, after);
    case Exhausted(after) =>
      ExhaustedDecodes(s, bufs, d, after);
      if |bufs| > 1 {
        RefillDecodes(bufs[1].bytes, bufs[1..], Leave(after, bufs[0]));
        assert Remaining(bufs[1].bytes, bufs[1..]) == bufs[1..];
      } else {
        assert bufs[1..] == [];
      }
  }

  lemma ExhaustedDecodes(s: seq<byte>, bufs: seq<Buf>, d: DecState, after: DecState)
    requires bufs != [] && DecodeStream(s, d) == Some(([], after))
    ensures DecodeBufs(Remaining(s, bufs), d) == DecodeBufs(bufs[1..], Leave(after, bufs[0]))
  {
    RemainingDecodes(s, bufs, d);
    ContinueNothing(DecodeBufs(bufs[1..], Leave(after, bufs[0])));
  }

  lemma FoundDecodes(s: seq<byte>, n: Timed, rest: seq<byte>, bufs: seq<Buf>, d: DecState, after: DecState)
    requires bufs != [] && DecodeStream(s, d) == Continue([n], DecodeStream(rest, after))
    ensures DecodeBufs(Remaining(s, bufs), d) == Continue([n], DecodeBufs(Remaining(rest, bufs), after))
  {
    RemainingDecodes(s, bufs, d);
    RemainingDecodes(rest, bufs, after);
    if DecodeStream(rest, after).Some? {
      var (evs, mid) := DecodeStream(rest, after).value;
      ContinueTwice([n], evs, DecodeBufs(bufs[1..], Leave(mid, bufs[0])));
    }
  }

  // ---------- The program ----------

  class FullThreadState {
    const threadId: Tid
    var d: DecState // previous size and token, token sequence, last timestamp and cpu
    var activeBuf: Buf
    var lastEvent: Events.Event
    var activeStream: MemStream?
    var bufs: seq<Buf>
    var dead: bool
    var signalled: bool
    var inPendingFrees: bool

    // A thread without buffers has no stream; the buffers of any other can be decoded.
    ghost predicate Valid()
      reads this, activeStream
    {
      if activeStream == null then bufs == []
      else
        && activeStream.owner == this
        && activeStream.Valid() && bufs != [] && activeBuf == bufs[0]
        && DecodeBufs(Remaining(activeStream.Rest(), bufs), d).Some?
    }

    // The events not delivered yet, the current one first.
    ghost function Pending(): seq<Timed>
      reads this, activeStream
      requires Valid()
    {
      if activeStream == null then []
      else [Timed(lastEvent, d.ts, d.cpu)] + DecodeBufs(Remaining(activeStream.Rest(), bufs), d).value.0
    }

    // The decoder's state when all of them have been read.
    ghost function Final(): DecState
      reads this, activeStream
      requires Valid()
    {
      if activeStream == null then d else DecodeBufs(Remaining(activeStream.Rest(), bufs), d).value.1
    }

    // ts and cpu are what the uninitialised clock happens to hold.
    constructor (tid: Tid, ts: u64, cpu: u64)
      ensures Valid() && Pending() == [] && Final() == DecState(0, 0, 0, ts, cpu) && bufs == []
      ensures threadId == tid && !dead && !signalled && !inPendingFrees && activeStream == null
    {
      threadId := tid;
      d := DecState(0, 0, 0, ts, cpu);
      activeBuf := Buf(0, 0, []);
      lastEvent := Events.Free(0);
      activeStream := null;
      bufs := [];
      dead, signalled, inPendingFrees := false, false, false;
    }

    // Reads the next event of the active buffer.
    method UpdateLastEventInner(junk: seq<byte>) returns (ok: bool, panicked: bool)
      requires activeStream != null && activeStream.Valid() && |junk| == MAX_SIZE
      modifies `d, `lastEvent, activeStream
      ensures activeStream.Valid()
      ensures match ReadNext(old(activeStream.Rest()), old(d))
              case Broken => panicked
              case Exhausted(after) => !panicked && !ok && d == after
              case Event(ev, rest, after) =>
                !panicked && ok && lastEvent == ev && d == after && activeStream.Rest() == rest
      decreases |activeStream.Rest()|
    {
      hide Parse, DecodeEvent, DecodeType;
      ok, panicked := false, false;
      ghost var bytes := activeStream.Rest();
      var more := activeStream.HasMore();
      if !more {
        return;
      }
      var firstWord, p := activeStream.MustReadVarint(junk);
      if p {
        return false, true;
      }
      ghost var s1 := bytes[Parse(bytes).value.advance..];
      assert activeStream.Rest() == s1;
      var kind := DecodeType(firstWord);
      if !IsInnerKind(kind) {
        return false, true;
      }
      var secondWord: u64 := 0;
      if HasSecondWord(kind) {
        secondWord, p := activeStream.MustReadVarint(junk);
        if p {
          return false, true;
        }
        assert activeStream.Rest() == s1[Parse(s1).value.advance..];
      }
      assert ReadInner(bytes, d) == Deliver(firstWord, secondWord, activeStream.Rest(), d);
      var (ev, after) := DecodeEvent(firstWord, secondWord, d);
      d := after;
      if ev == None {
        ok, panicked := UpdateLastEventInner(junk);
        return;
      }
      lastEvent := ev.value;
      ok := true;
    }

    // Moves on to the next event, through as many buffers as it takes.
    method UpdateLastEventRaw(junk: seq<byte>) returns (ok: bool, panicked: bool)
      requires activeStream != null && activeStream.Valid() && |junk| == MAX_SIZE
      requires bufs != [] && activeBuf == bufs[0] && activeStream.owner == this
      modifies `d, `lastEvent, `activeStream, `bufs, `activeBuf, activeStream
      ensures match Refill(old(activeStream.Rest()), old(bufs), old(d))
              case Stuck => panicked
              case Drained(after) => !panicked && !ok && d == after && bufs == [] && activeStream == null
              case Found(ev, rest, left, after) =>
                && !panicked && ok && lastEvent == ev && d == after
                && activeStream != null && activeStream.Valid() && activeStream.Rest() == rest
                && activeStream.owner == this
                && bufs == left && left != [] && activeBuf == left[0]
      ensures activeStream == null || activeStream == old(activeStream) || fresh(activeStream)
    {
      ghost var target := Refill(activeStream.Rest(), bufs, d);
      ok, panicked := UpdateLastEventInner(junk);
      while !ok && !panicked
        invariant activeStream == old(activeStream) || fresh(activeStream)
        invariant activeStream != null && activeStream.Valid() && activeStream.owner == this
        invariant bufs != [] && activeBuf == bufs[0]
        invariant panicked ==> target == Stuck
        invariant !panicked && ok ==> target == Found(lastEvent, activeStream.Rest(), bufs, d)
        invariant !panicked && !ok ==>
                    target == if |bufs| == 1 then Drained(Leave(d, bufs[0])) else Refill(bufs[1].bytes, bufs[1..], Leave(d, bufs[0]))
        decreases |bufs|, !ok && !panicked
      {
        d := Leave(d, activeBuf);
        bufs := bufs[1..];
        activeStream := null;
        if bufs == [] {
          return;
        }
        activeBuf := bufs[0];
        activeStream := new MemStream(activeBuf.bytes, this);
        assert activeStream.Rest() == activeBuf.bytes;
        ok, panicked := UpdateLastEventInner(junk);
      }
    }

    // The same for a thread whose buffers can be decoded: its head event is done with.
    method UpdateLastEvent(junk: seq<byte>) returns (ok: bool)
      requires Valid() && activeStream != null && |junk| == MAX_SIZE
      modifies `d, `lastEvent, `activeStream, `bufs, `activeBuf, activeStream
      ensures Valid() && Pending() == old(Pending())[1..] && Final() == old(Final())
      ensures ok <==> Pending() != []
      ensures activeStream == null || activeStream == old(activeStream) || fresh(activeStream)
    {
      RefillDecodes(activeStream.Rest(), bufs, d);
      var panicked;
      ok, panicked := UpdateLastEventRaw(junk);
    }

    // A buffer arrives.  The result tells whether the thread has become runnable.
    method AddBuffer(b: Buf, junk: seq<byte>) returns (runnable: bool)
      requires Valid() && |junk| == MAX_SIZE && DecodeBufs([b], Final()).Some?
      modifies `d, `lastEvent, `activeStream, `bufs, `activeBuf, activeStream
      ensures Valid() && Pending() == old(Pending()) + DecodeBufs([b], old(Final())).value.0
      ensures Final() == DecodeBufs([b], old(Final())).value.1
      ensures runnable <==> old(Pending()) == [] && Pending() != []
      ensures activeStream == null || activeStream == old(activeStream) || fresh(activeStream)
    {
      var wasEmpty := bufs == [];
      runnable := false;
      if !wasEmpty {
        ghost var rest := activeStream.Rest();
        assert Remaining(rest, bufs + [b]) == Remaining(rest, bufs) + [b];
        DecodeBufsConcat(Remaining(rest, bufs), [b], d);
        bufs := bufs + [b];
        return;
      }
      bufs := bufs + [b];
      activeBuf := b;
      activeStream := new MemStream(b.bytes, this);
      assert activeStream.Rest() == b.bytes;
      assert Remaining(b.bytes, [b]) == [b];
      RefillDecodes(activeStream.Rest(), bufs, d);
      var panicked;
      runnable, panicked := UpdateLastEventRaw(junk);
    }
  }
}
