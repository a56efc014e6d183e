/** What becomes of the pointers that the allocator returns to replay. */
module ReplayPointers {
  import opened Wrappers
  import opened Events
  import opened Replay

  // ---------- Where a pointer is ----------

  // A register holds what the allocator returned to the last instruction that filled it.
  lemma {:induction false} PointerStays(out: seq<Instruction>, ptrs: nat -> nat, j: nat, reg: nat)
    requires j < |out| && Filled(out[j]) == Some(reg)
    requires forall k :: j < k < |out| ==> Filled(out[k]) != Some(reg) && Emptied(out[k]) != Some(reg)
    ensures PointerIn(out, ptrs, reg) == ptrs(j)
  {
    if j < |out| - 1 {
      PointerStays(out[..|out| - 1], ptrs, j, reg);
    }
  }

  // ---------- All that is returned is given back ----------

  function One(x: Option<nat>): multiset<nat> {
    match x
    case Some(v) => multiset{v}
    case None => multiset{}
  }

  // What the allocator has returned.
  function Returned(out: seq<Instruction>, ptrs: nat -> nat): multiset<nat> {
    if out == [] then multiset{}
    else
      Returned(out[..|out| - 1], ptrs) + if Filled(out[|out| - 1]).Some? then multiset{ptrs(|out| - 1)} else multiset{}
  }

  // What it has been given back, to be freed or moved.
  function GivenBack(requests: seq<Request>): multiset<nat> {
    if requests == [] then multiset{}
    else
      GivenBack(requests[..|requests| - 1]) +
      match requests[|requests| - 1]
      case GiveBack(ptr) => multiset{ptr}
      case AskRealloc(ptr, _) => multiset{ptr}
      case _ => multiset{}
  }

  // The pointers in the registers below n.
  function InRegisters(held: nat -> Option<nat>, n: nat): multiset<nat> {
    if n == 0 then multiset{} else InRegisters(held, n - 1) + One(held(n - 1))
  }

  function Content(out: seq<Instruction>, ptrs: nat -> nat): nat -> Option<nat> {
    reg => if reg in RegsAfter(out) then Some(PointerIn(out, ptrs, reg)) else None
  }

  lemma AddBoth(a: multiset<nat>, b: multiset<nat>, x: multiset<nat>, y: multiset<nat>, c: multiset<nat>)
    requires a + x == b + y
    ensures (a + c) + x == (b + c) + y
  {
    assert (a + c) + x == (a + x) + c;
  }

  lemma SameBelow(f: nat -> Option<nat>, g: nat -> Option<nat>, n: nat)
    requires forall r: nat :: r < n ==> f(r) == g(r)
    ensures InRegisters(f, n) == InRegisters(g, n)
  {
  }

  lemma {:induction false} OneChanges(f: nat -> Option<nat>, g: nat -> Option<nat>, reg: nat, n: nat)
    requires reg < n && forall r: nat :: r != reg ==> f(r) == g(r)
    ensures InRegisters(f, n) + One(g(reg)) == InRegisters(g, n) + One(f(reg))
  {
    hide One;
    if reg == n - 1 {
      SameBelow(f, g, n - 1);
      AddSwap(InRegisters(f, n - 1), One(f(reg)), One(g(reg)));
    } else {
      OneChanges(f, g, reg, n - 1);
      AddBoth(InRegisters(f, n - 1), InRegisters(g, n - 1), One(g(reg)), One(f(reg)), One(f(n - 1)));
    }
  }

  lemma AddSwap(a: multiset<nat>, x: multiset<nat>, y: multiset<nat>)
    ensures (a + x) + y == (a + y) + x
  {
  }

  lemma {:induction false} NothingHeld(f: nat -> Option<nat>, n: nat)
    requires forall r: nat :: f(r) == None
    ensures InRegisters(f, n) == multiset{}
  {
    if n > 0 {
      NothingHeld(f, n - 1);
    }
  }

  lemma GivenBackMore(requests: seq<Request>, r: Request)
    ensures GivenBack(requests + [r]) ==
            GivenBack(requests) + if r.GiveBack? || r.AskRealloc? then multiset{r.ptr} else multiset{}
  {
    assert (requests + [r])[..|requests|] == requests;
  }

  lemma GivenBackBy(out: seq<Instruction>, ptrs: nat -> nat, i: Instruction)
    ensures GivenBack(RequestsAfter(out + [i], ptrs)) ==
            GivenBack(RequestsAfter(out, ptrs)) + if Emptied(i).Some? then multiset{HeldFor(out, ptrs, i)} else multiset{}
  {
    hide GivenBack, RequestsAfter, HeldFor;
    PointersSnoc(out, ptrs, i);
    GivenBackByOne(RequestsAfter(out, ptrs), i, HeldFor(out, ptrs, i));
  }

  lemma GivenBackByOne(requests: seq<Request>, i: Instruction, held: nat)
    ensures GivenBack(requests + RequestsOf(i, held)) ==
            GivenBack(requests) + if Emptied(i).Some? then multiset{held} else multiset{}
  {
    hide GivenBack;
    var more := RequestsOf(i, held);
    if more == [] {
      assert requests + more == requests;
    } else {
      GivenBackMore(requests, more[0]);
      assert more == [more[0]];
    }
  }

  lemma ReturnedBy(out: seq<Instruction>, ptrs: nat -> nat, i: Instruction)
    ensures Returned(out + [i], ptrs) == Returned(out, ptrs) + if Filled(i).Some? then multiset{ptrs(|out|)} else multiset{}
  {
    assert (out + [i])[..|out|] == out;
  }

  function Without(held: nat -> Option<nat>, x: Option<nat>): nat -> Option<nat> {
    reg => if x == Some(reg) then None else held(reg)
  }

  function With(held: nat -> Option<nat>, x: Option<nat>, ptr: nat): nat -> Option<nat> {
    reg => if x == Some(reg) then Some(ptr) else held(reg)
  }

  lemma EmptyOne(held: nat -> Option<nat>, x: Option<nat>, n: nat)
    requires x.Some? ==> x.value < n
    ensures InRegisters(held, n) == InRegisters(Without(held, x), n) + if x.Some? then One(held(x.value)) else multiset{}
  {
    if x.Some? {
      OneChanges(held, Without(held, x), x.value, n);
    } else {
      SameBelow(held, Without(held, x), n);
    }
  }

  lemma FillOne(held: nat -> Option<nat>, x: Option<nat>, ptr: nat, n: nat)
    requires x.Some? ==> x.value < n && held(x.value) == None
    ensures InRegisters(With(held, x, ptr), n) == InRegisters(held, n) + if x.Some? then multiset{ptr} else multiset{}
  {
    if x.Some? {
      OneChanges(held, With(held, x, ptr), x.value, n);
    } else {
      SameBelow(held, With(held, x, ptr), n);
    }
  }

  lemma ContentSnoc(out: seq<Instruction>, ptrs: nat -> nat, i: Instruction, reg: nat)
    ensures Content(out + [i], ptrs)(reg) == With(Without(Content(out, ptrs), Emptied(i)), Filled(i), ptrs(|out|))(reg)
  {
    PointersSnoc(out, ptrs, i);
    TraceSnoc(out, i);
  }

  lemma EmptiedHeld(out: seq<Instruction>, ptrs: nat -> nat, i: Instruction)
    requires Tidy(RegsAfter(out), i)
    ensures Emptied(i).Some? ==>
              Emptied(i).value in Names(i) && Content(out, ptrs)(Emptied(i).value) == Some(HeldFor(out, ptrs, i))
    ensures Filled(i).Some? ==>
              Filled(i).value in Names(i) && Without(Content(out, ptrs), Emptied(i))(Filled(i).value) == None
  {
  }

  // The registers gain what was returned and lose what was given back.
  lemma RegistersChange(out: seq<Instruction>, ptrs: nat -> nat, i: Instruction, n: nat)
    requires Tidy(RegsAfter(out), i) && forall r :: r in Names(i) ==> r < n
    ensures InRegisters(Content(out + [i], ptrs), n) + (if Emptied(i).Some? then multiset{HeldFor(out, ptrs, i)} else multiset{})
            == InRegisters(Content(out, ptrs), n) + (if Filled(i).Some? then multiset{ptrs(|out|)} else multiset{})
  {
    hide InRegisters, Content, Without, With, Names, Tidy, Filled, Emptied, HeldFor;
    var held := Content(out, ptrs);
    var rest := Without(held, Emptied(i));
    EmptiedHeld(out, ptrs, i);
    EmptyOne(held, Emptied(i), n);
    FillOne(rest, Filled(i), ptrs(|out|), n);
    forall reg: nat ensures Content(out + [i], ptrs)(reg) == With(rest, Filled(i), ptrs(|out|))(reg) {
      ContentSnoc(out, ptrs, i, reg);
    }
    SameBelow(Content(out + [i], ptrs), With(rest, Filled(i), ptrs(|out|)), n);
    AddSwap(InRegisters(rest, n), if Filled(i).Some? then multiset{ptrs(|out|)} else multiset{},
            if Emptied(i).Some? then multiset{HeldFor(out, ptrs, i)} else multiset{});
  }

  lemma Balance(a: multiset<nat>, b: multiset<nat>, f: multiset<nat>, g: multiset<nat>, x: multiset<nat>, y: multiset<nat>)
    requires a == b + f && g + x == f + y
    ensures a + y == (b + x) + g
  {
    assert (b + x) + g == b + (g + x);
  }

  // Over a tidy trace, the pointers the allocator has returned are those it has been given back and
  // those still in registers, each once.
  lemma {:induction false} PointersKept(out: seq<Instruction>, ptrs: nat -> nat, n: nat)
    requires TidyTrace(out) && forall k, r :: 0 <= k < |out| && r in Names(out[k]) ==> r < n
    ensures Returned(out, ptrs) == GivenBack(RequestsAfter(out, ptrs)) + InRegisters(Content(out, ptrs), n)
  {
    if out == [] {
      NothingHeld(Content(out, ptrs), n);
    } else {
      hide InRegisters, Content, GivenBack, Returned, Names, Filled, Emptied, HeldFor;
      var before, i := out[..|out| - 1], out[|out| - 1];
      assert out == before + [i];
      assert forall r :: r in Names(i) ==> r < n;
      forall k, r | 0 <= k < |before| && r in Names(before[k]) ensures r < n {
        assert before[k] == out[k];
      }
      PointersKept(before, ptrs, n);
      GivenBackBy(before, ptrs, i);
      ReturnedBy(before, ptrs, i);
      RegistersChange(before, ptrs, i, n);
      Balance(Returned(before, ptrs), GivenBack(RequestsAfter(before, ptrs)), InRegisters(Content(before, ptrs), n),
              InRegisters(Content(out, ptrs), n), if Emptied(i).Some? then multiset{HeldFor(before, ptrs, i)} else multiset{},
              if Filled(i).Some? then multiset{ptrs(|before|)} else multiset{});
    }
  }

  // So a tidy trace that leaves no register full gives back every pointer exactly once.
  lemma AllGivenBack(out: seq<Instruction>, ptrs: nat -> nat, n: nat)
    requires TidyTrace(out) && RegsAfter(out) == map[]
    requires forall k, r :: 0 <= k < |out| && r in Names(out[k]) ==> r < n
    ensures Returned(out, ptrs) == GivenBack(RequestsAfter(out, ptrs))
  {
    PointersKept(out, ptrs, n);
    NothingHeld(Content(out, ptrs), n);
  }
}
