/** The four-level bitmap that hands out ids, and its refinement of a plain set of live ids. */
module IdTrees {

  // ---------- Words and levels ----------

  // A 64-bit word as its bits, lowest first.
  type Word = w: seq<bool> | |w| == 64 witness seq(64, i => false)

  const ONES: Word := seq(64, i => true)

  predicate NonZero(w: Word) {
    exists i :: 0 <= i < 64 && w[i]
  }

  // The position of the lowest set bit at or after i.
  function BsfFrom(w: Word, i: nat): (r: nat)
    requires exists k :: i <= k < 64 && w[k]
    ensures i <= r < 64 && w[r] && forall k :: i <= k < r ==> !w[k]
    decreases 64 - i
  {
    if w[i] then i else BsfFrom(w, i + 1)
  }

  function Bsf(w: Word): (r: nat)
    requires NonZero(w)
    ensures r < 64 && w[r] && forall k :: 0 <= k < r ==> !w[k]
  {
    BsfFrom(w, 0)
  }

  // One level of the tree; a set bit means "available".
  type Level = seq<Word>

  predicate At(v: Level, pos: nat)
    requires pos < 64 * |v|
  {
    v[pos / 64][pos % 64]
  }

  // pos is the first available position of the level.
  ghost predicate First(v: Level, pos: nat) {
    pos < 64 * |v| && At(v, pos) && forall q: nat :: q < pos ==> !At(v, q)
  }

  ghost predicate Full(v: Level) {
    forall q: nat :: q < 64 * |v| ==> !At(v, q)
  }

  // Each bit of the upper level says whether the word of the lower level is non-zero, and is 1 for
  // words that are not there yet.
  ghost predicate Linked(lower: Level, upper: Level) {
    && |lower| <= 64 * |upper|
    && forall p: nat :: p < 64 * |upper| ==> (At(upper, p) <==> p >= |lower| || NonZero(lower[p]))
  }

  lemma AtWord(v: Level, p: nat, i: nat)
    requires p < |v| && i < 64
    ensures 64 * p + i < 64 * |v| && At(v, 64 * p + i) == v[p][i]
  {
  }

  lemma NotThereYet(lower: Level, upper: Level)
    requires Linked(lower, upper) && |lower| < 64 * |upper|
    ensures At(upper, |lower|)
  {
  }

  // The level above a full level is full where it has words, and what is not there yet comes next.
  lemma FullBelow(lower: Level, upper: Level)
    requires Linked(lower, upper) && Full(upper)
    ensures |lower| == 64 * |upper| && Full(lower)
  {
    if |lower| < 64 * |upper| {
      NotThereYet(lower, upper);
    }
    forall q: nat | q < 64 * |lower| ensures !At(lower, q) {
      assert !At(upper, q / 64);
    }
  }

  // The first available position of the upper level leads to that of the lower level, or to the
  // place where the lower level has to grow.
  lemma FirstBelow(lower: Level, upper: Level, pos: nat)
    requires Linked(lower, upper) && First(upper, pos)
    ensures pos <= |lower|
    ensures pos == |lower| ==> Full(lower)
    ensures pos < |lower| ==> NonZero(lower[pos]) && First(lower, 64 * pos + Bsf(lower[pos]))
  {
    if |lower| < pos {
      NotThereYet(lower, upper);
    }
    forall q: nat | q < 64 * pos && q < 64 * |lower| ensures !At(lower, q) {
      assert !At(upper, q / 64);
    }
    if pos < |lower| {
      var b := Bsf(lower[pos]);
      AtWord(lower, pos, b);
      forall q: nat | q < 64 * pos + b ensures !At(lower, q) {
        if q >= 64 * pos {
          AtWord(lower, pos, q - 64 * pos);
        }
      }
    }
  }

  // Adding a word of available positions to a full level.
  lemma Grow(v: Level)
    requires Full(v)
    ensures First(v + [ONES], 64 * |v|)
  {
    AtWord(v + [ONES], |v|, 0);
    forall q: nat | q < 64 * |v| ensures !At(v + [ONES], q) {
      assert !At(v, q);
    }
  }

  lemma GrowUpper(lower: Level, upper: Level)
    requires Linked(lower, upper)
    ensures Linked(lower, upper + [ONES])
  {
    var grown := upper + [ONES];
    forall p: nat | p < 64 * |grown| ensures At(grown, p) <==> p >= |lower| || NonZero(lower[p]) {
      if p < 64 * |upper| {
        assert At(grown, p) == At(upper, p);
      }
    }
  }

  lemma GrowLower(lower: Level, upper: Level)
    requires Linked(lower, upper) && |lower| < 64 * |upper|
    ensures Linked(lower + [ONES], upper)
  {
    assert ONES[0];
  }

  // The level with the bit at pos set to b.
  function Put(v: Level, pos: nat, b: bool): (r: Level)
    requires pos < 64 * |v|
    ensures |r| == |v|
    ensures forall q: nat :: q < 64 * |v| ==> At(r, q) == if q == pos then b else At(v, q)
  {
    v[pos / 64 := v[pos / 64][pos % 64 := b]]
  }

  // Whether the level above has to change as well when the bit at pos is set to b.
  predicate Flips(v: Level, pos: nat, b: bool)
    requires pos < 64 * |v|
  {
    if b then !NonZero(v[pos / 64]) else !NonZero(Put(v, pos, b)[pos / 64])
  }

  lemma PutKeepsLinks(lower: Level, upper: Level, pos: nat, b: bool)
    requires Linked(lower, upper) && pos < 64 * |lower|
    ensures Linked(Put(lower, pos, b), if Flips(lower, pos, b) then Put(upper, pos / 64, b) else upper)
  {
    var w, z := lower[pos / 64], Put(lower, pos, b)[pos / 64];
    assert z == w[pos % 64 := b];
    if b {
      assert z[pos % 64];
    } else if !Flips(lower, pos, b) {
      var i :| 0 <= i < 64 && z[i];
      assert w[i];
    }
  }

  // The tree after the bit for id is set to b: a level changes when the one below it flips.
  datatype Tree = Tree(l0: Level, l1: Level, l2: Level, l3: Level)
  {
    ghost predicate Linked3() {
      Linked(l0, l1) && Linked(l1, l2) && Linked(l2, l3)
    }
  }

  function SetBitOf(t: Tree, id: nat, b: bool): Tree
    requires id < 64 * |t.l0| && |t.l0| <= 64 * |t.l1| && |t.l1| <= 64 * |t.l2| && |t.l2| <= 64 * |t.l3|
  {
    var p1, p2, p3 := id / 64, id / 64 / 64, id / 64 / 64 / 64;
    if !Flips(t.l0, id, b) then t.(l0 := Put(t.l0, id, b))
    else if !Flips(t.l1, p1, b) then t.(l0 := Put(t.l0, id, b), l1 := Put(t.l1, p1, b))
    else if !Flips(t.l2, p2, b) then t.(l0 := Put(t.l0, id, b), l1 := Put(t.l1, p1, b), l2 := Put(t.l2, p2, b))
    else Tree(Put(t.l0, id, b), Put(t.l1, p1, b), Put(t.l2, p2, b), Put(t.l3, p3, b))
  }

  lemma SetBitKeepsLinks(t: Tree, id: nat, b: bool)
    requires t.Linked3() && id < 64 * |t.l0|
    ensures SetBitOf(t, id, b).Linked3()
  {
    var p1, p2 := id / 64, id / 64 / 64;
    PutKeepsLinks(t.l0, t.l1, id, b);
    PutKeepsLinks(t.l1, t.l2, p1, b);
    PutKeepsLinks(t.l2, t.l3, p2, b);
  }

  // The top level has nothing available: it grows, and so does everything below it.
  lemma GrowTop(t: Tree)
    requires t.Linked3() && Full(t.l3)
    ensures |t.l2| == 64 * |t.l3| && |t.l1| == 64 * |t.l2| && |t.l0| == 64 * |t.l1|
    ensures t.(l3 := t.l3 + [ONES]).Linked3() && First(t.l3 + [ONES], 64 * |t.l3|)
  {
    FullBelow(t.l2, t.l3);
    FullBelow(t.l1, t.l2);
    FullBelow(t.l0, t.l1);
    Grow(t.l3);
    GrowUpper(t.l2, t.l3);
  }

  lemma Descend2(t: Tree, pos: nat)
    requires t.Linked3() && First(t.l3, pos)
    ensures pos < |t.l2| ==> NonZero(t.l2[pos]) && First(t.l2, 64 * pos + Bsf(t.l2[pos]))
    ensures pos >= |t.l2| ==> pos == |t.l2| && |t.l1| == 64 * |t.l2| && |t.l0| == 64 * |t.l1|
    ensures pos >= |t.l2| ==> t.(l2 := t.l2 + [ONES]).Linked3() && First(t.l2 + [ONES], 64 * pos)
  {
    FirstBelow(t.l2, t.l3, pos);
    if pos >= |t.l2| {
      FullBelow(t.l1, t.l2);
      FullBelow(t.l0, t.l1);
      Grow(t.l2);
      GrowUpper(t.l1, t.l2);
      GrowLower(t.l2, t.l3);
    }
  }

  lemma Descend1(t: Tree, pos: nat)
    requires t.Linked3() && First(t.l2, pos)
    ensures pos < |t.l1| ==> NonZero(t.l1[pos]) && First(t.l1, 64 * pos + Bsf(t.l1[pos]))
    ensures pos >= |t.l1| ==> pos == |t.l1| && |t.l0| == 64 * |t.l1|
    ensures pos >= |t.l1| ==> t.(l1 := t.l1 + [ONES]).Linked3() && First(t.l1 + [ONES], 64 * pos)
  {
    FirstBelow(t.l1, t.l2, pos);
    if pos >= |t.l1| {
      FullBelow(t.l0, t.l1);
      Grow(t.l1);
      GrowUpper(t.l0, t.l1);
      GrowLower(t.l1, t.l2);
    }
  }

  lemma Descend0(t: Tree, pos: nat)
    requires t.Linked3() && First(t.l1, pos)
    ensures pos < |t.l0| ==> NonZero(t.l0[pos]) && First(t.l0, 64 * pos + Bsf(t.l0[pos]))
    ensures pos >= |t.l0| ==> pos == |t.l0|
    ensures pos >= |t.l0| ==> t.(l0 := t.l0 + [ONES]).Linked3() && First(t.l0 + [ONES], 64 * pos)
  {
    FirstBelow(t.l0, t.l1, pos);
    if pos >= |t.l0| {
      Grow(t.l0);
      GrowLower(t.l0, t.l1);
    }
  }

  // ---------- Sets of ids ----------

  lemma {:induction false} BelowAreMany(live: set<nat>, n: nat)
    requires forall i: nat :: i < n ==> i in live
    ensures n <= |live|
  {
    if n > 0 {
      assert n - 1 in live;
      BelowAreMany(live - {n - 1}, n - 1);
    }
  }

  function LeastFreeFrom(live: set<nat>, n: nat): (r: nat)
    requires forall i: nat :: i < n ==> i in live
    ensures r !in live && forall i: nat :: i < r ==> i in live
    decreases |live| - n
  {
    if n !in live then n else BelowAreMany(live, n + 1); LeastFreeFrom(live, n + 1)
  }

  // The least id that is not live; it is at most the number of live ones.
  function LeastFree(live: set<nat>): (r: nat)
    ensures r !in live && forall i: nat :: i < r ==> i in live
    ensures r <= |live|
  {
    var r := LeastFreeFrom(live, 0);
    BelowAreMany(live, r);
    r
  }

  ghost function Unavailable(v: Level): set<nat> {
    set i: nat | i < 64 * |v| && !At(v, i)
  }

  // Growing makes nothing unavailable, and the first available id is the least that is not live.
  lemma TakeFirst(v: Level, grown: Level, id: nat)
    requires grown == v || grown == v + [ONES]
    requires First(grown, id)
    ensures id == LeastFree(Unavailable(v)) && id !in Unavailable(v)
    ensures Unavailable(Put(grown, id, false)) == Unavailable(v) + {id}
  {
    forall i: nat ensures i in Unavailable(v) <==> i in Unavailable(grown) {
      if |v| * 64 <= i < 64 * |grown| {
        AtWord(grown, |v|, i - 64 * |v|);
      } else if i < 64 * |v| {
        assert At(grown, i) == At(v, i);
      }
    }
    assert id !in Unavailable(v);
    forall i: nat | i < id ensures i in Unavailable(v) {
      assert !At(grown, i);
    }
    var r := LeastFree(Unavailable(v));
    assert !(r < id) && !(id < r);
  }

  // ---------- The tree ----------

  class IdTree {
    var level0: Level
    var level1: Level
    var level2: Level
    var level3: Level

    ghost predicate Valid()
      reads this
    {
      View().Linked3()
    }

    function View(): Tree
      reads this
    {
      Tree(level0, level1, level2, level3)
    }

    // The ids handed out and not returned.
    ghost function Live(): set<nat>
      reads this
    {
      Unavailable(level0)
    }

    constructor ()
      ensures Valid() && Live() == {}
    {
      level0, level1, level2, level3 := [], [], [], [];
    }

    static method FindSetBit(v: Level) returns (ok: bool, pos: nat)
      ensures ok ==> First(v, pos)
      ensures !ok ==> Full(v)
    {
      ok, pos := false, 0;
      var i := 0;
      while i < |v|
        invariant 0 <= i <= |v|
        invariant forall q: nat :: q < 64 * i ==> !At(v, q)
      {
        if NonZero(v[i]) {
          pos := i * 64 + Bsf(v[i]);
          ok := true;
          AtWord(v, i, Bsf(v[i]));
          forall q: nat | q < pos ensures !At(v, q) {
            if q >= 64 * i { AtWord(v, i, q - 64 * i); }
          }
          return;
        }
        forall q: nat | q < 64 * (i + 1) ensures !At(v, q) {
          if q >= 64 * i { AtWord(v, i, q - 64 * i); }
        }
        i := i + 1;
      }
    }

    // Sets one bit of a level; tells whether the level above has to flip.
    static method SetBitVector(pos: nat, bval: bool, v: Level) returns (flip: bool, r: Level)
      requires pos < 64 * |v|
      ensures r == Put(v, pos, bval) && flip == Flips(v, pos, bval)
    {
      var word := v[pos / 64];
      var newVal: Word := word[pos % 64 := bval];
      r := v[pos / 64 := newVal];
      flip := if bval then !NonZero(word) else !NonZero(newVal);
    }

    method SetBit(id: nat, bval: bool)
      requires Valid() && id < 64 * |level0|
      modifies this
      ensures Valid() && View() == SetBitOf(old(View()), id, bval) && level0 == Put(old(level0), id, bval)
    {
      SetBitKeepsLinks(View(), id, bval);
      var pos, flip := id, true;
      flip, level0 := SetBitVector(pos, bval, level0);
      if !flip {
        return;
      }
      pos := pos / 64;
      flip, level1 := SetBitVector(pos, bval, level1);
      if !flip {
        return;
      }
      pos := pos / 64;
      flip, level2 := SetBitVector(pos, bval, level2);
      if !flip {
        return;
      }
      pos := pos / 64;
      flip, level3 := SetBitVector(pos, bval, level3);
    }

    predicate IsFreeAt(id: nat)
      requires id < 64 * |level0|
      reads this
      ensures IsFreeAt(id) <==> id !in Live()
    {
      At(level0, id)
    }

    // The steps of AllocateId: each level is searched where the one above points, or grows.
    method FindInLevel3() returns (pos: nat)
      requires Valid()
      modifies `level3
      ensures Valid() && First(level3, pos)
    {
      var ok;
      ok, pos := FindSetBit(level3);
      if !ok {
        GrowTop(View());
        var sz := |level3|;
        pos := sz * 64;
        assert |level2| == sz * 64;
        sz := sz * 64;
        assert |level1| == sz * 64;
        sz := sz * 64;
        assert |level0| == sz * 64;
        level3 := level3 + [ONES];
      }
    }

    method FindInLevel2(pos: nat) returns (pos2: nat)
      requires Valid() && First(level3, pos)
      modifies `level2
      ensures Valid() && First(level2, pos2)
    {
      Descend2(View(), pos);
      if pos >= |level2| {
        var sz := |level2|;
        assert sz == pos;
        pos2 := sz * 64;
        assert |level1| == sz * 64;
        sz := sz * 64;
        assert |level0| == sz * 64;
        level2 := level2 + [ONES];
      } else {
        pos2 := pos * 64 + Bsf(level2[pos]);
      }
    }

    method FindInLevel1(pos2: nat) returns (pos1: nat)
      requires Valid() && First(level2, pos2)
      modifies `level1
      ensures Valid() && First(level1, pos1)
    {
      Descend1(View(), pos2);
      if pos2 >= |level1| {
        var sz := |level1|;
        assert sz == pos2;
        pos1 := sz * 64;
        assert |level0| == sz * 64;
        level1 := level1 + [ONES];
      } else {
        pos1 := pos2 * 64 + Bsf(level1[pos2]);
      }
    }

    method FindInLevel0(pos1: nat) returns (pos0: nat)
      requires Valid() && First(level1, pos1)
      modifies `level0
      ensures Valid() && First(level0, pos0)
      ensures level0 == old(level0) || level0 == old(level0) + [ONES]
    {
      Descend0(View(), pos1);
      if pos1 >= |level0| {
        var sz := |level0|;
        assert sz == pos1;
        pos0 := sz * 64;
        level0 := level0 + [ONES];
      } else {
        pos0 := pos1 * 64 + Bsf(level0[pos1]);
      }
    }

    method FindFree() returns (pos0: nat)
      requires Valid()
      modifies this
      ensures Valid() && First(level0, pos0)
      ensures level0 == old(level0) || level0 == old(level0) + [ONES]
    {
      var pos := FindInLevel3();
      var pos2 := FindInLevel2(pos);
      var pos1 := FindInLevel1(pos2);
      pos0 := FindInLevel0(pos1);
    }

    // Hands out the least id that is not live.
    method AllocateId() returns (id: nat)
      requires Valid()
      modifies this
      ensures Valid()
      ensures id == LeastFree(old(Live())) && Live() == old(Live()) + {id}
    {
      id := FindFree();
      TakeFirst(old(level0), level0, id);
      assert IsFreeAt(id);
      SetBit(id, false);
    }

    // Takes back an id that was handed out.
    method FreeId(id: nat)
      requires Valid() && id in Live()
      modifies this
      ensures Valid() && Live() == old(Live()) - {id}
    {
      assert !IsFreeAt(id);
      SetBit(id, true);
      assert IsFreeAt(id);
    }
  }
}
