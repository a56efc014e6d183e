/** The windowed reader of a mapped file. */
module MemStreams {
  import opened Wrappers
  import opened Words
  import opened Varint

  const REALIZE_SIZE: nat := 0x10_0000

  function Max(a: nat, b: nat): nat {
    if a > b then a else b
  }

  function Min(a: nat, b: nat): nat {
    if a < b then a else b
  }

  // Positions count from the first byte of the mapping, where the realized window starts too.
  class MemStream {
    const data: seq<byte>     // all the bytes the mapper can supply
    ghost const owner: object? // the thread that reads it, if it is a thread's buffer
    var ptr: nat          // the next byte to read
    var end: nat          // the end of the window realized so far
    var permissiveAdvance: bool

    ghost predicate Valid()
      reads this
    {
      ptr <= end <= |data| && !permissiveAdvance
    }

    ghost function Rest(): seq<byte>
      reads this
      requires Valid()
    {
      data[ptr..]
    }

    constructor (bytes: seq<byte>, ghost owner: object?)
      ensures Valid() && data == bytes && ptr == 0 && this.owner == owner
    {
      data, ptr, end, permissiveAdvance := bytes, 0, 0, false;
      this.owner := owner;
    }

    // Asks the mapper for a window; it supplies what is asked for, or all there is.
    method RealizeMore(minAmount: nat) returns (ok: bool)
      requires ptr <= |data|
      modifies `end
      ensures end == Min(ptr + Max(minAmount, REALIZE_SIZE), |data|)
      ensures ok <==> ptr + minAmount <= |data|
    {
      var realizeAmount := ptr + Max(minAmount, REALIZE_SIZE);
      end := Min(realizeAmount, |data|);
      ok := end - ptr >= minAmount;
    }

    predicate HasAtLeastVarint()
      reads this
    {
      ptr + MAX_SIZE <= end
    }

    // Whether there is a byte left.
    method HasMore() returns (more: bool)
      requires Valid()
      modifies `end
      ensures Valid() && (more <==> Rest() != [])
    {
      if ptr < end {
        return true;
      }
      var _ := RealizeMore(0);
      more := ptr < end;
    }

    // Moves on.  Beyond the end of the data this panics, or in permissive mode leaves the reader
    // just past the window.
    method AdvanceBy(amount: nat) returns (start: nat, panicked: bool)
      requires ptr <= end <= |data|
      modifies `ptr, `end
      ensures start == old(ptr) && end <= |data|
      ensures old(ptr) + amount <= |data| ==> !panicked && ptr == old(ptr) + amount <= end
      ensures old(ptr) + amount > |data| ==> panicked == !permissiveAdvance && end == |data|
      ensures old(ptr) + amount > |data| && permissiveAdvance ==> ptr == end + 1
      ensures panicked ==> ptr == old(ptr)
    {
      start, panicked := ptr, false;
      if end - ptr >= amount {
        ptr := ptr + amount;
        return;
      }
      var ok := RealizeMore(amount);
      if !ok {
        if !permissiveAdvance {
          panicked := true;
          return;
        }
        ptr := end + 1;
        return;
      }
      ptr := ptr + amount;
    }

    // junk is what the uninitialised tail of the copied bytes happens to hold.
    method ReadVarintSlow(junk: seq<byte>) returns (value: u64, panicked: bool)
      requires ptr <= end <= |data| && |junk| == MAX_SIZE
      modifies `ptr, `end
      ensures end <= |data|
      ensures match Parse(old(data[ptr..]))
              case Some(d) => !panicked && value == d.value && ptr == old(ptr) + d.advance <= end
              case None => panicked == !permissiveAdvance && (permissiveAdvance ==> ptr == end + 1 && end == |data|)
      ensures panicked ==> ptr == old(ptr) <= end
    {
      hide Parse, DecodeUnsigned;
      var _ := RealizeMore(0);
      if HasAtLeastVarint() {
        var res := DecodeUnsigned(data[ptr..]);
        DecodersAgree(data[ptr..]);
        var _, p := AdvanceBy(res.advance);
        return res.value, p;
      }
      ghost var rest := data[ptr..];
      assert end == |data|;
      var tmp := data[ptr..end] + junk[end - ptr..];
      DecodersAgree(tmp);
      TailIsUnseen(rest, junk[end - ptr..]);
      assert tmp == rest + junk[end - ptr..];
      var res := DecodeUnsigned(tmp);
      var _, p := AdvanceBy(res.advance);
      value, panicked := res.value, p;
    }

    // Reads a varint, or panics if there is no complete one.
    method MustReadVarint(junk: seq<byte>) returns (value: u64, panicked: bool)
      requires Valid() && |junk| == MAX_SIZE
      modifies `ptr, `end
      ensures Valid()
      ensures match Parse(old(Rest()))
              case Some(d) => !panicked && value == d.value && ptr == old(ptr) + d.advance
              case None => panicked
    {
      if !HasAtLeastVarint() {
        value, panicked := ReadVarintSlow(junk);
        return;
      }
      var res := DecodeUnsigned(data[ptr..]);
      DecodersAgree(data[ptr..]);
      var _, p := AdvanceBy(res.advance);
      value, panicked := res.value, p;
    }

    // Reads a varint if there is a complete one; otherwise the rest of the data is given up.
    method TryReadVarint(junk: seq<byte>) returns (r: Option<u64>)
      requires Valid() && |junk| == MAX_SIZE
      modifies this
      ensures Valid()
      ensures match Parse(old(Rest()))
              case Some(d) => r == Some(d.value) && ptr == old(ptr) + d.advance
              case None => r == None && ptr == |data|
    {
      if HasAtLeastVarint() {
        var res := DecodeUnsigned(data[ptr..]);
        DecodersAgree(data[ptr..]);
        var _, _ := AdvanceBy(res.advance);
        return Some(res.value);
      }
      permissiveAdvance := true;
      var value, _ := ReadVarintSlow(junk);
      permissiveAdvance := false;
      if ptr > end {
        ptr := end;
        return None;
      }
      r := Some(value);
    }

    // Moves over amount bytes if there are as many; otherwise the rest of the data is given up.
    method TryAdvanceBy(amount: nat) returns (r: Option<nat>)
      requires Valid()
      modifies this
      ensures Valid()
      ensures old(ptr) + amount <= |data| ==> r == Some(old(ptr)) && ptr == old(ptr) + amount
      ensures old(ptr) + amount > |data| ==> r == None && ptr == |data|
    {
      permissiveAdvance := true;
      var start, _ := AdvanceBy(amount);
      permissiveAdvance := false;
      if ptr > end {
        ptr := end;
        return None;
      }
      r := Some(start);
    }
  }

  // Decoding bytes with an arbitrary tail: a complete varint is read as if the tail were not
  // there, and an incomplete one claims more bytes than there are.
  lemma TailIsUnseen(rest: seq<byte>, tail: seq<byte>)
    requires |rest + tail| >= MAX_SIZE
    ensures Parse(rest).Some? ==> Parse(rest + tail) == Parse(rest) && Parse(rest).value.advance <= |rest|
    ensures Parse(rest) == None ==> Parse(rest + tail).Some? && Parse(rest + tail).value.advance > |rest|
  {
    DecodersAgree(rest + tail);
    if Parse(rest).Some? {
      ParseIsLocal(rest, tail);
    } else if rest != [] {
      assert (rest + tail)[0] == rest[0];
    }
  }
}
