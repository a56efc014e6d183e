/** The allocation events of a trace, and what a legal ordering of them is. */
module Events {
  import opened Wrappers

  // Thread ids, tokens, sizes and clocks are the values of 64-bit words.  Here they are only
  // compared; the arithmetic on the words themselves is in the codec modules.
  type Tid = int
  type Token = int

  // One allocator call of the traced program.  Tokens name allocated objects.
  datatype Event =
    | Malloc(tok: Token, size: int)
    | Memalign(tok: Token, size: int, align: int)
    | Free(tok: Token)
    | FreeSized(tok: Token)
    | Realloc(oldTok: Token, newTok: Token, newSize: int)
  {
    // The token this event brings to life.
    function Gives(): Option<Token> {
      match this
      case Malloc(tok, _) => Some(tok)
      case Memalign(tok, _, _) => Some(tok)
      case Realloc(_, newTok, _) => Some(newTok)
      case _ => None
    }

    // The token this event consumes, and therefore has to wait for.
    function Takes(): Option<Token> {
      match this
      case Free(tok) => Some(tok)
      case FreeSized(tok) => Some(tok)
      case Realloc(oldTok, _, _) => Some(oldTok)
      case _ => None
    }
  }

  // An event with the clock of its thread at the time it was decoded.
  datatype Timed = Timed(ev: Event, ts: int, cpu: int)

  // Marks "no token" in the drain loop, and "no thread" in the receiver state.
  const EMPTY_TOKEN: Token := 0xFFFF_FFFF_FFFF_FFFF
  const INVALID_THREAD: Tid := 0xFFFF_FFFF_FFFF_FFFF

  function ToSet<T>(x: Option<T>): set<T> {
    match x
    case None => {}
    case Some(v) => {v}
  }
}

/** Legal orderings ("schedules") of the events of several threads. */
module History {
  import opened Wrappers
  import opened Events

  // What every thread does, in its own order.
  type Program = map<Tid, seq<Timed>>

  // How many events of thread t the schedule h contains.
  function Count(h: seq<Tid>, t: Tid): nat {
    if h == [] then 0
    else Count(h[..|h| - 1], t) + if h[|h| - 1] == t then 1 else 0
  }

  predicate HasNext(p: Program, h: seq<Tid>, t: Tid) {
    t in p && Count(h, t) < |p[t]|
  }

  function Next(p: Program, h: seq<Tid>, t: Tid): Timed
    requires HasNext(p, h, t)
  {
    p[t][Count(h, t)]
  }

  // The tokens alive after running schedule h.
  function Live(p: Program, h: seq<Tid>): set<Token> {
    if h == [] then {}
    else
      var before, t := h[..|h| - 1], h[|h| - 1];
      if HasNext(p, before, t) then
        var ev := Next(p, before, t).ev;
        Live(p, before) - ToSet(ev.Takes()) + ToSet(ev.Gives())
      else Live(p, before)
  }

  // h keeps every thread's order, and consumes a token only while it is alive.
  predicate Legal(p: Program, h: seq<Tid>) {
    h == [] ||
    var before, t := h[..|h| - 1], h[|h| - 1];
    && Legal(p, before)
    && HasNext(p, before, t)
    && ToSet(Next(p, before, t).ev.Takes()) <= Live(p, before)
  }

  // The i-th event of thread t gives (takes) token k.
  ghost predicate GivesAt(p: Program, t: Tid, i: int, k: Token) {
    t in p && 0 <= i < |p[t]| && p[t][i].ev.Gives() == Some(k)
  }

  ghost predicate TakesAt(p: Program, t: Tid, i: int, k: Token) {
    t in p && 0 <= i < |p[t]| && p[t][i].ev.Takes() == Some(k)
  }

  // What is assumed of a trace: a token is allocated at most once and consumed at most once,
  // and neither the "no token" nor the "no thread" marker occurs.
  ghost predicate WellFormed(p: Program) {
    && INVALID_THREAD !in p
    && (forall t, i, k :: GivesAt(p, t, i, k) ==> k != EMPTY_TOKEN)
    && (forall t, i, u, j, k :: GivesAt(p, t, i, k) && GivesAt(p, u, j, k) ==> t == u && i == j)
    && (forall t, i, u, j, k :: TakesAt(p, t, i, k) && TakesAt(p, u, j, k) ==> t == u && i == j)
  }

  // Token k was given (taken) by an event that schedule h contains.
  ghost predicate Given(p: Program, h: seq<Tid>, k: Token) {
    exists t, i :: GivesAt(p, t, i, k) && i < Count(h, t)
  }

  ghost predicate Taken(p: Program, h: seq<Tid>, k: Token) {
    exists t, i :: TakesAt(p, t, i, k) && i < Count(h, t)
  }

  lemma CountSnoc(h: seq<Tid>, t: Tid, u: Tid)
    ensures Count(h + [t], u) == Count(h, u) + if t == u then 1 else 0
  {
    assert (h + [t])[..|h|] == h;
  }

  lemma LegalSnoc(p: Program, h: seq<Tid>, t: Tid)
    requires HasNext(p, h, t)
    ensures Live(p, h + [t]) == Live(p, h) - ToSet(Next(p, h, t).ev.Takes()) + ToSet(Next(p, h, t).ev.Gives())
    ensures Legal(p, h + [t]) <==> Legal(p, h) && ToSet(Next(p, h, t).ev.Takes()) <= Live(p, h)
  {
    assert (h + [t])[..|h|] == h;
  }

  lemma GivenSnoc(p: Program, h: seq<Tid>, t: Tid, k: Token)
    requires HasNext(p, h, t)
    ensures Given(p, h + [t], k) <==> Given(p, h, k) || Next(p, h, t).ev.Gives() == Some(k)
  {
    forall u ensures Count(h + [t], u) == Count(h, u) + if t == u then 1 else 0 { CountSnoc(h, t, u); }
    if Given(p, h, k) {
      var u, i :| GivesAt(p, u, i, k) && i < Count(h, u);
      assert i < Count(h + [t], u);
    }
    if Next(p, h, t).ev.Gives() == Some(k) { assert GivesAt(p, t, Count(h, t), k); }
  }

  lemma TakenSnoc(p: Program, h: seq<Tid>, t: Tid, k: Token)
    requires HasNext(p, h, t)
    ensures Taken(p, h + [t], k) <==> Taken(p, h, k) || Next(p, h, t).ev.Takes() == Some(k)
  {
    forall u ensures Count(h + [t], u) == Count(h, u) + if t == u then 1 else 0 { CountSnoc(h, t, u); }
    if Taken(p, h, k) {
      var u, i :| TakesAt(p, u, i, k) && i < Count(h, u);
      assert i < Count(h + [t], u);
    }
    if Next(p, h, t).ev.Takes() == Some(k) { assert TakesAt(p, t, Count(h, t), k); }
  }

  // The next event of a thread gives (takes) a token no schedule up to it has given (taken).
  lemma NextIsNew(p: Program, h: seq<Tid>, t: Tid, k: Token)
    requires WellFormed(p) && HasNext(p, h, t)
    ensures Next(p, h, t).ev.Gives() == Some(k) ==> !Given(p, h, k)
    ensures Next(p, h, t).ev.Takes() == Some(k) ==> !Taken(p, h, k)
  {
    if Next(p, h, t).ev.Gives() == Some(k) { assert GivesAt(p, t, Count(h, t), k); }
    if Next(p, h, t).ev.Takes() == Some(k) { assert TakesAt(p, t, Count(h, t), k); }
  }

  // Along a legal schedule a token is alive exactly when it was given and not yet taken.
  lemma {:induction false} LiveIffGivenNotTaken(p: Program, h: seq<Tid>, k: Token)
    requires WellFormed(p) && Legal(p, h)
    ensures k in Live(p, h) <==> Given(p, h, k) && !Taken(p, h, k)
    ensures Taken(p, h, k) ==> Given(p, h, k)
  {
    if h != [] {
      var before, t := h[..|h| - 1], h[|h| - 1];
      LiveIffGivenNotTaken(p, before, k);
      assert h == before + [t];
      GivenSnoc(p, before, t, k);
      TakenSnoc(p, before, t, k);
      NextIsNew(p, before, t, k);
    }
  }

  lemma {:induction false} LegalStaysInProgram(p: Program, h: seq<Tid>, t: Tid)
    requires Legal(p, h)
    ensures Count(h, t) > 0 ==> t in p
    ensures t in p ==> Count(h, t) <= |p[t]|
  {
    if h != [] {
      LegalStaysInProgram(p, h[..|h| - 1], t);
    }
  }

  // q continues p: more events may have been decoded, nothing was changed.
  ghost predicate Extends(p: Program, q: Program) {
    forall t :: t in p ==> t in q && p[t] <= q[t]
  }

  // Decoding more events changes nothing about what was already done.
  lemma {:induction false} ExtendKeepsLegal(p: Program, q: Program, h: seq<Tid>)
    requires Extends(p, q) && Legal(p, h)
    ensures Legal(q, h) && Live(q, h) == Live(p, h)
  {
    if h != [] {
      ExtendKeepsLegal(p, q, h[..|h| - 1]);
    }
  }

  // p and q hold the same events; their clocks may differ.
  ghost predicate SameEvents(p: Program, q: Program) {
    && p.Keys == q.Keys
    && (forall t :: t in p ==> |p[t]| == |q[t]|)
    && (forall t, i :: t in p && 0 <= i < |p[t]| ==> p[t][i].ev == q[t][i].ev)
  }

  lemma {:induction false} ClocksDoNotMatter(p: Program, q: Program, h: seq<Tid>)
    requires SameEvents(p, q)
    ensures Legal(p, h) <==> Legal(q, h)
    ensures Live(p, h) == Live(q, h)
  {
    if h != [] {
      ClocksDoNotMatter(p, q, h[..|h| - 1]);
    }
  }

  // No thread can go on: each one's next event waits for a token that is not alive.
  ghost predicate Stuck(p: Program, h: seq<Tid>) {
    forall t :: HasNext(p, h, t) ==>
      Next(p, h, t).ev.Takes().Some? && Next(p, h, t).ev.Takes().value !in Live(p, h)
  }

  // A schedule that can go no further contains every event that any legal schedule contains.
  lemma {:induction false} StuckIsMaximal(p: Program, h: seq<Tid>, g: seq<Tid>, t: Tid)
    requires WellFormed(p) && Legal(p, h) && Stuck(p, h) && Legal(p, g)
    ensures Count(g, t) <= Count(h, t)
  {
    if g != [] {
      var before, last := g[..|g| - 1], g[|g| - 1];
      StuckIsMaximal(p, h, before, t);
      if t == last && Count(before, t) == Count(h, t) {
        var k := Next(p, h, t).ev.Takes().value;
        LiveIffGivenNotTaken(p, before, k);
        LiveIffGivenNotTaken(p, h, k);
        var u, i :| GivesAt(p, u, i, k) && i < Count(before, u);
        StuckIsMaximal(p, h, before, u);
        assert Given(p, h, k);
        assert TakesAt(p, t, Count(h, t), k);
        assert false;
      }
    }
  }

  // Any two schedules that can go no further deliver the same events and leave the same tokens
  // alive, whatever the clocks and the choices made on the way were.
  lemma StuckIsUnique(p: Program, h: seq<Tid>, q: Program, g: seq<Tid>)
    requires WellFormed(p) && WellFormed(q) && SameEvents(p, q)
    requires Legal(p, h) && Stuck(p, h) && Legal(q, g) && Stuck(q, g)
    ensures forall t :: Count(h, t) == Count(g, t)
    ensures Live(p, h) == Live(q, g)
  {
    ClocksDoNotMatter(p, q, h);
    ClocksDoNotMatter(p, q, g);
    forall t ensures Count(h, t) == Count(g, t) {
      StuckIsMaximal(p, h, g, t);
      StuckIsMaximal(q, g, h, t);
    }
    forall k ensures k in Live(p, h) <==> k in Live(p, g) {
      LiveIffGivenNotTaken(p, h, k);
      LiveIffGivenNotTaken(p, g, k);
    }
  }

  // If the whole program can be run at all, then a schedule that can go no further is complete.
  lemma StuckIsComplete(p: Program, h: seq<Tid>, g: seq<Tid>)
    requires WellFormed(p) && Legal(p, h) && Stuck(p, h)
    requires Legal(p, g) && forall t :: t in p ==> Count(g, t) == |p[t]|
    ensures forall t :: t in p ==> Count(h, t) == |p[t]|
  {
    forall t | t in p ensures Count(h, t) == |p[t]| {
      StuckIsMaximal(p, h, g, t);
      LegalStaysInProgram(p, h, t);
    }
  }

  // What happened, in order: which thread did what, and when.
  function Told(p: Program, h: seq<Tid>): seq<(Tid, Timed)> {
    if h == [] then []
    else
      var before, t := h[..|h| - 1], h[|h| - 1];
      Told(p, before) + if HasNext(p, before, t) then [(t, Next(p, before, t))] else []
  }

  function Of(story: seq<(Tid, Timed)>, t: Tid): seq<Timed> {
    if story == [] then []
    else
      var (u, e) := story[|story| - 1];
      Of(story[..|story| - 1], t) + if u == t then [e] else []
  }

  lemma ToldSnoc(p: Program, h: seq<Tid>, t: Tid)
    requires HasNext(p, h, t)
    ensures Told(p, h + [t]) == Told(p, h) + [(t, Next(p, h, t))]
  {
    assert (h + [t])[..|h|] == h;
  }

  lemma {:induction false} ExtendKeepsTold(p: Program, q: Program, h: seq<Tid>)
    requires Extends(p, q) && Legal(p, h)
    ensures Told(q, h) == Told(p, h)
  {
    if h != [] {
      ExtendKeepsTold(p, q, h[..|h| - 1]);
    }
  }

  // What a legal schedule tells of one thread is a prefix of what that thread does.
  lemma {:induction false} ToldInOrder(p: Program, h: seq<Tid>, t: Tid)
    requires Legal(p, h) && t in p
    ensures Count(h, t) <= |p[t]| && Of(Told(p, h), t) == p[t][..Count(h, t)]
  {
    LegalStaysInProgram(p, h, t);
    if h != [] {
      var before, last := h[..|h| - 1], h[|h| - 1];
      ToldInOrder(p, before, t);
      var story := Told(p, before);
      assert Told(p, h) == story + [(last, Next(p, before, last))];
      assert Told(p, h)[..|story|] == story;
    }
  }
}
