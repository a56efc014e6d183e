/** The input buffer of replay, over a file that may be read in small pieces. */
module ReplayInputs {
  import opened Wrappers
  import opened Words

  const BUFFER_SIZE: nat := 0x100_0000
  const MIN_READ_AMOUNT: nat := 1024

  // More than this cannot be moved to the front of the buffer without overlapping itself.
  const MAX_LEFTOVER: nat := (BUFFER_SIZE - MIN_READ_AMOUNT) / 2

  // What a read of the file may come to.
  datatype Answer =
    | Interrupted  // by a signal
    | Failed
    | Upto(n: nat) // at most n + 1 bytes, though more may be there and asked for

  // The file, as the operating system lets it be read: pattern says how the next reads turn out, and
  // when it is used up every read is given all there is.
  class File {
    const data: seq<byte>
    var pos: nat
    var pattern: seq<Answer>

    ghost predicate Valid()
      reads this
    {
      pos <= |data|
    }

    constructor (data: seq<byte>, pattern: seq<Answer>)
      ensures Valid() && this.data == data && pos == 0 && this.pattern == pattern
    {
      this.data, pos, this.pattern := data, 0, pattern;
    }

    // rv is -1 if the read was interrupted, -2 if it failed, and otherwise the number of bytes that
    // were put into buf from start on; it is 0 only at the end of the file.
    method Read(buf: array<byte>, start: nat, space: nat) returns (rv: int)
      requires Valid() && start + space <= buf.Length && space > 0
      modifies this, buf
      ensures Valid() && -2 <= rv <= space
      ensures |pattern| <= |old(pattern)| && forall a :: a in pattern ==> a in old(pattern)
      ensures rv < 0 ==> pos == old(pos) && buf[..] == old(buf[..]) && |pattern| < |old(pattern)|
      ensures rv == -2 ==> Failed in old(pattern)
      ensures rv >= 0 ==> pos == old(pos) + rv && (rv == 0 <==> old(pos) == |data|)
      ensures rv >= 0 ==> buf[..] == old(buf[..start]) + data[old(pos)..pos] + old(buf[start + rv..])
    {
      var most := if space < |data| - pos then space else |data| - pos;
      if pattern != [] {
        var answer := pattern[0];
        pattern := pattern[1..];
        if answer == Interrupted {
          return -1;
        }
        if answer == Failed {
          return -2;
        }
        most := if answer.n + 1 < most then answer.n + 1 else most;
      }
      forall i | 0 <= i < most {
        buf[start + i] := data[pos + i];
      }
      pos := pos + most;
      rv := most;
    }
  }

  lemma FrontOf<T>(left: seq<T>, right: seq<T>, n: nat)
    requires n <= |left|
    ensures (left + right)[..n] == left[..n] && (left + right)[n..] == left[n..] + right
  {
  }

  class Input {
    const fd: File
    const buffer: array<byte>
    var bufPtr: nat
    var bufEnd: nat

    ghost predicate Valid()
      reads this, fd, buffer
    {
      && buffer.Length == BUFFER_SIZE && bufPtr <= bufEnd <= BUFFER_SIZE && fd.Valid()
    }

    // The bytes not handed out yet.
    ghost function Rest(): seq<byte>
      reads this, fd, buffer
      requires Valid()
    {
      buffer[bufPtr..bufEnd] + fd.data[fd.pos..]
    }

    constructor (fd: File)
      requires fd.Valid()
      ensures Valid() && this.fd == fd && Rest() == fd.data[fd.pos..]
      ensures fresh(buffer) && buffer.Length == 0x100_0000 && bufPtr == bufEnd == 0
    {
      this.fd := fd;
      buffer := new byte[BUFFER_SIZE](i => 0);
      bufPtr, bufEnd := 0, 0;
    }

    // Moves what is left to the front of the buffer, when little room is left behind it.
    method Rebase()
      requires Valid() && bufEnd - bufPtr <= MAX_LEFTOVER
      modifies `bufPtr, `bufEnd, buffer
      ensures Valid() && Rest() == old(Rest()) && bufEnd - bufPtr == old(bufEnd - bufPtr)
      ensures BUFFER_SIZE - bufEnd >= MIN_READ_AMOUNT
    {
      if BUFFER_SIZE - bufEnd < MIN_READ_AMOUNT {
        var amount := bufEnd - bufPtr;
        assert amount <= bufPtr; // the two places do not overlap
        forall i | 0 <= i < amount {
          buffer[i] := buffer[bufPtr + i];
        }
        assert buffer[..amount] == old(buffer[bufPtr..bufEnd]);
        bufPtr := 0;
        bufEnd := bufPtr + amount;
      }
    }

    // One read into the room behind what the buffer holds.
    method ReadMore() returns (rv: int)
      requires Valid() && bufEnd < BUFFER_SIZE
      modifies `bufEnd, fd, buffer
      ensures Valid() && Rest() == old(Rest()) && -2 <= rv
      ensures |fd.pattern| <= |old(fd.pattern)| && forall a :: a in fd.pattern ==> a in old(fd.pattern)
      ensures rv < 0 ==> fd.pos == old(fd.pos) && bufEnd == old(bufEnd) && |fd.pattern| < |old(fd.pattern)|
      ensures rv == -2 ==> Failed in old(fd.pattern)
      ensures rv >= 0 ==> fd.pos == old(fd.pos) + rv && bufEnd == old(bufEnd) + rv && (rv == 0 <==> old(fd.pos) == |fd.data|)
    {
      rv := fd.Read(buffer, bufEnd, BUFFER_SIZE - bufEnd);
      if rv >= 0 {
        bufEnd := bufEnd + rv;
        assert buffer[bufPtr..bufEnd] == old(buffer[bufPtr..bufEnd]) + fd.data[old(fd.pos)..fd.pos];
        assert fd.data[old(fd.pos)..] == fd.data[old(fd.pos)..fd.pos] + fd.data[fd.pos..];
      } else {
        assert buffer[bufPtr..bufEnd] == buffer[..][bufPtr..bufEnd];
      }
    }

    // Reads until there are enough new bytes or the file has ended.
    method RefillBuffer() returns (aborted: bool)
      requires Valid() && bufEnd - bufPtr <= MAX_LEFTOVER
      modifies this, fd, buffer
      ensures Valid() && Rest() == old(Rest())
      ensures forall a :: a in fd.pattern ==> a in old(fd.pattern)
      ensures aborted ==> Failed in old(fd.pattern)
      ensures !aborted ==> fd.pos == |fd.data| || bufEnd - bufPtr >= old(bufEnd - bufPtr) + 1024
    {
      Rebase();
      aborted := false;
      var totalRead := 0;
      while true
        invariant Valid() && Rest() == old(Rest()) && bufEnd - bufPtr == old(bufEnd - bufPtr) + totalRead
        invariant 0 <= totalRead < MIN_READ_AMOUNT <= BUFFER_SIZE - (bufEnd - totalRead)
        invariant forall a :: a in fd.pattern ==> a in old(fd.pattern)
        decreases |fd.data| - fd.pos, |fd.pattern|
      {
        var rv := ReadMore();
        if rv == -2 {
          aborted := true;
          return;
        }
        if rv == 0 {
          return;
        }
        if rv > 0 {
          totalRead := totalRead + rv;
        }
        if totalRead >= MIN_READ_AMOUNT {
          return;
        }
      }
    }

    // The bytes to come begin with those at the pointer, and go on behind them.
    lemma TakeOut(amount: nat)
      requires Valid() && bufPtr + amount <= bufEnd
      ensures amount <= |Rest()| && Rest()[..amount] == buffer[bufPtr..bufPtr + amount]
      ensures Rest()[amount..] == buffer[bufPtr + amount..bufEnd] + fd.data[fd.pos..]
    {
      var left := buffer[bufPtr..bufEnd];
      FrontOf(left, fd.data[fd.pos..], amount);
      assert left[..amount] == buffer[bufPtr..bufPtr + amount];
      assert left[amount..] == buffer[bufPtr + amount..bufEnd];
    }

    // Hands out the next amount bytes.  A request that one refill can meet fails only if the file has
    // fewer left; a larger one may also fail because a refill is content with MIN_READ_AMOUNT new bytes.
    method BufferRead(amount: nat) returns (ok: bool, bytes: seq<byte>, aborted: bool)
      requires Valid() && amount <= MAX_LEFTOVER
      modifies this, fd, buffer
      ensures Valid()
      ensures aborted ==> Failed in old(fd.pattern)
      ensures !aborted && ok ==> amount <= |old(Rest())|
      ensures !aborted && ok ==> bytes == old(Rest())[..amount] && Rest() == old(Rest())[amount..]
      ensures !aborted && !ok ==> Rest() == old(Rest())
      ensures !aborted && !ok ==> amount > |old(Rest())| || amount > old(bufEnd - bufPtr) + 1024
      ensures forall a :: a in fd.pattern ==> a in old(fd.pattern)
    {
      ok, bytes, aborted := false, [], false;
      if bufPtr + amount > bufEnd {
        aborted := RefillBuffer();
        if aborted || bufPtr + amount > bufEnd {
          return;
        }
      }
      TakeOut(amount);
      bytes := buffer[bufPtr..bufPtr + amount];
      bufPtr := bufPtr + amount;
      ok := true;
    }
  }
}
