/** The K&R storage allocator of umalloc.c: an address-ordered circular list of
    free blocks, coalesced on free.  Addresses count header-sized units. */
module Umalloc {
  import opened Types

  const HEADER := 8            // sizeof(Header)
  const MIN_CORE := 4096
  const UINT := 0x1_0000_0000

  // ----- blocks tile the memory obtained so far

  /** The block at a owns exactly the units from its header on. */
  ghost predicate BlockOk(a: int, size: map<int, int>, owner: map<int, int>) {
    a in size && size[a] >= 1 && forall u :: a <= u < a + size[a] ==> u in owner && owner[u] == a
  }

  ghost predicate UnitOk(u: int, blocks: set<int>, size: map<int, int>, owner: map<int, int>) {
    u in owner && owner[u] in blocks && owner[u] in size && owner[u] <= u < owner[u] + size[owner[u]]
  }

  /** Every unit obtained from the system belongs to exactly one block. */
  ghost predicate Tiled(blocks: set<int>, size: map<int, int>, owner: map<int, int>) {
    && (forall a :: a in blocks ==> BlockOk(a, size, owner))
    && (forall u :: u in owner ==> UnitOk(u, blocks, size, owner))
  }

  predicate Within(u: int, a: int, n: int) {
    a <= u < a + n
  }

  /** The units of a block of n units at a. */
  ghost function Units(a: int, n: int): set<int> {
    set u | a <= u < a + n && Within(u, a, n)
  }

  /** owner with the n units from a on assigned to b. */
  ghost function Reowned(owner: map<int, int>, a: int, n: int, b: int): map<int, int> {
    map u | u in owner.Keys + Units(a, n) :: if Within(u, a, n) then b else owner[u]
  }

  lemma SplitUnit(blocks: set<int>, size: map<int, int>, owner: map<int, int>, a: int, n: int, u: int)
    requires a in blocks && BlockOk(a, size, owner) && 0 < n < size[a] && UnitOk(u, blocks, size, owner)
    requires a + size[a] - n !in blocks
    ensures var b := a + size[a] - n;
            UnitOk(u, blocks + {b}, size[a := size[a] - n][b := n], Reowned(owner, b, n, b))
  {
  }

  lemma SplitOff(size: map<int, int>, owner: map<int, int>, a: int, n: int, c: int)
    requires BlockOk(a, size, owner) && 0 < n < size[a]
    requires c != a + size[a] - n ==> BlockOk(c, size, owner)
    ensures var b := a + size[a] - n;
            BlockOk(c, size[a := size[a] - n][b := n], Reowned(owner, b, n, b))
  {
  }

  lemma SplitBlock(blocks: set<int>, size: map<int, int>, owner: map<int, int>, a: int, n: int)
    requires Tiled(blocks, size, owner) && a in blocks && BlockOk(a, size, owner) && 0 < n < size[a]
    ensures var b := a + size[a] - n;
            && b !in blocks && Reowned(owner, b, n, b).Keys == owner.Keys
            && Tiled(blocks + {b}, size[a := size[a] - n][b := n], Reowned(owner, b, n, b))
  {
    var b := a + size[a] - n;
    var size', owner' := size[a := size[a] - n][b := n], Reowned(owner, b, n, b);
    assert b !in blocks by {
      assert owner[b] == a;
      assert b in blocks ==> BlockOk(b, size, owner);
    }
    assert owner'.Keys == owner.Keys;
    SplitTiles(blocks, size, owner, a, n);
  }

  lemma SplitTiles(blocks: set<int>, size: map<int, int>, owner: map<int, int>, a: int, n: int)
    requires Tiled(blocks, size, owner) && a in blocks && BlockOk(a, size, owner) && a in size && 0 < n < size[a]
    requires var b := a + size[a] - n; b !in blocks && Reowned(owner, b, n, b).Keys == owner.Keys
    ensures var b := a + size[a] - n;
            Tiled(blocks + {b}, size[a := size[a] - n][b := n], Reowned(owner, b, n, b))
  {
    hide BlockOk, UnitOk, Reowned;
    var b := a + size[a] - n;
    var size', owner' := size[a := size[a] - n][b := n], Reowned(owner, b, n, b);
    forall u | u in owner' ensures UnitOk(u, blocks + {b}, size', owner') {
      assert u in owner'.Keys;
      SplitUnit(blocks, size, owner, a, n, u);
    }
    forall c | c in blocks + {b} ensures BlockOk(c, size', owner') {
      SplitOff(size, owner, a, n, c);
    }
  }

  lemma MergeBlocks(blocks: set<int>, size: map<int, int>, owner: map<int, int>, a: int, b: int)
    requires Tiled(blocks, size, owner) && a in blocks && b in blocks
    requires BlockOk(a, size, owner) && BlockOk(b, size, owner) && a + size[a] == b
    ensures && Reowned(owner, b, size[b], a).Keys == owner.Keys
            && Tiled(blocks - {b}, size[a := size[a] + size[b]], Reowned(owner, b, size[b], a))
  {
    var size', owner' := size[a := size[a] + size[b]], Reowned(owner, b, size[b], a);
    forall u | u in owner' ensures UnitOk(u, blocks - {b}, size', owner') {
      assert u in owner && UnitOk(u, blocks, size, owner);
    }
    forall c | c in blocks - {b} ensures BlockOk(c, size', owner') {
      assert BlockOk(c, size, owner);
    }
  }

  lemma AddBlock(blocks: set<int>, size: map<int, int>, owner: map<int, int>, a: int, n: int)
    requires Tiled(blocks, size, owner) && n >= 1 && forall u :: a <= u < a + n ==> u !in owner
    ensures a !in blocks && Reowned(owner, a, n, a).Keys == owner.Keys + Units(a, n)
    ensures Tiled(blocks + {a}, size[a := n], Reowned(owner, a, n, a))
  {
    var size', owner' := size[a := n], Reowned(owner, a, n, a);
    assert a !in owner;
    assert a in blocks ==> BlockOk(a, size, owner);
    forall u | u in owner' ensures UnitOk(u, blocks + {a}, size', owner') {
      if u in owner { assert UnitOk(u, blocks, size, owner); }
    }
    forall c | c in blocks + {a} ensures BlockOk(c, size', owner') {
      if c != a { assert BlockOk(c, size, owner); }
    }
  }

  lemma Disjoint(blocks: set<int>, size: map<int, int>, owner: map<int, int>, a: int, b: int)
    requires Tiled(blocks, size, owner) && a in blocks && b in blocks && a < b
    ensures a in size && b in size && a + size[a] <= b
  {
    assert BlockOk(a, size, owner) && BlockOk(b, size, owner);
    assert b in owner && owner[b] == b;
  }

  // ----- the ring of free blocks

  /** The ring in address order; the zero-size block `base` is its lowest member. */
  ghost predicate Ordered(ring: seq<int>, base: int) {
    |ring| >= 1 && ring[0] == base && forall i, j :: 0 <= i < j < |ring| ==> ring[i] < ring[j]
  }

  function Next(ring: seq<int>, i: nat): nat
    requires i < |ring|
  {
    if i + 1 < |ring| then i + 1 else 0
  }

  /** Block i of the ring points to the next one, the last back to base. */
  ghost predicate LinkAt(ring: seq<int>, ptr: map<int, int>, i: nat) {
    i < |ring| && ring[i] in ptr && ptr[ring[i]] == ring[Next(ring, i)]
  }

  ghost predicate Linked(ring: seq<int>, ptr: map<int, int>) {
    forall i :: 0 <= i < |ring| ==> LinkAt(ring, ptr, i)
  }

  /** Free block i ends before the next one starts, and does not touch it. */
  ghost predicate GapAt(ring: seq<int>, size: map<int, int>, i: nat) {
    i < |ring| && ring[i] in size && (1 <= i < |ring| - 1 ==> ring[i] + size[ring[i]] < ring[i + 1])
  }

  ghost predicate Apart(ring: seq<int>, size: map<int, int>) {
    && (forall i :: 0 <= i < |ring| ==> GapAt(ring, size, i))
    && (ring != [] ==> GapAt(ring, size, 0) && size[ring[0]] == 0)
  }

  ghost function FreeBlocks(ring: seq<int>): set<int>
    requires |ring| >= 1
  {
    set i | 1 <= i < |ring| :: ring[i]
  }

  // ----- pointer surgery

  /** ring with bp after position t, dropping the block after t if it was absorbed. */
  ghost function Inserted(ring: seq<int>, t: nat, bp: int, absorbed: bool): (r: seq<int>)
    requires t < |ring| && (absorbed ==> t + 1 < |ring|)
    ensures |r| == if absorbed then |ring| else |ring| + 1
    ensures r[t + 1] == bp
    ensures forall i :: 0 <= i <= t ==> r[i] == ring[i]
    ensures forall i :: t + 1 < i < |r| ==> r[i] == ring[if absorbed then i else i - 1]
  {
    if absorbed then ring[t + 1 := bp] else ring[..t + 1] + [bp] + ring[t + 1..]
  }

  ghost function Removed(ring: seq<int>, i: nat): (r: seq<int>)
    requires i < |ring|
    ensures |r| == |ring| - 1
    ensures forall j :: 0 <= j < i ==> r[j] == ring[j]
    ensures forall j :: i <= j < |r| ==> r[j] == ring[j + 1]
  {
    ring[..i] + ring[i + 1..]
  }

  /** Where an address above base belongs. */
  ghost predicate Slot(ring: seq<int>, t: nat, bp: int) {
    t < |ring| && ring[t] < bp && (t + 1 < |ring| ==> bp < ring[t + 1])
  }

  lemma InsertOrdered(ring: seq<int>, base: int, t: nat, bp: int, absorbed: bool)
    requires Ordered(ring, base) && Slot(ring, t, bp) && (absorbed ==> t + 1 < |ring|)
    ensures Ordered(Inserted(ring, t, bp, absorbed), base)
  {
  }

  lemma InsertLinked(ring: seq<int>, base: int, ptr: map<int, int>, t: nat, bp: int, absorbed: bool)
    requires Ordered(ring, base) && Linked(ring, ptr) && Slot(ring, t, bp) && (absorbed ==> t + 1 < |ring|)
    requires LinkAt(ring, ptr, t) && (absorbed ==> LinkAt(ring, ptr, t + 1))
    ensures Linked(Inserted(ring, t, bp, absorbed),
                   ptr[bp := if absorbed then ptr[ring[t + 1]] else ptr[ring[t]]][ring[t] := bp])
  {
    hide Inserted;
    var r := Inserted(ring, t, bp, absorbed);
    var ptr' := ptr[bp := if absorbed then ptr[ring[t + 1]] else ptr[ring[t]]][ring[t] := bp];
    forall i | 0 <= i < |r| ensures LinkAt(r, ptr', i) {
      if i != t && i != t + 1 {
        var j := if i < t || absorbed then i else i - 1;
        assert LinkAt(ring, ptr, j) && r[i] == ring[j];
        assert ring[j] != bp && ring[j] != ring[t];
      }
    }
  }

  lemma InsertFree(ring: seq<int>, t: nat, bp: int, absorbed: bool)
    requires t < |ring| && (absorbed ==> t + 1 < |ring|)
    ensures FreeBlocks(Inserted(ring, t, bp, absorbed)) + (if absorbed then {ring[t + 1]} else {}) == FreeBlocks(ring) + {bp}
  {
    hide Inserted;
    var r := Inserted(ring, t, bp, absorbed);
    forall i | 1 <= i < |ring| && !(absorbed && i == t + 1) ensures ring[i] in FreeBlocks(r) {
      assert ring[i] == r[if i <= t || absorbed then i else i + 1];
    }
    assert r[t + 1] in FreeBlocks(r);
  }

  lemma RemoveOrdered(ring: seq<int>, base: int, i: nat)
    requires Ordered(ring, base) && 1 <= i < |ring|
    ensures Ordered(Removed(ring, i), base)
  {
  }

  lemma RemoveLinked(ring: seq<int>, base: int, ptr: map<int, int>, i: nat)
    requires Ordered(ring, base) && Linked(ring, ptr) && 1 <= i < |ring| && LinkAt(ring, ptr, i)
    ensures Linked(Removed(ring, i), ptr[ring[i - 1] := ptr[ring[i]]])
  {
    hide Removed;
    var r, ptr' := Removed(ring, i), ptr[ring[i - 1] := ptr[ring[i]]];
    forall j | 0 <= j < |r| ensures LinkAt(r, ptr', j) {
      var k := if j < i then j else j + 1;
      assert LinkAt(ring, ptr, k) && r[j] == ring[k];
    }
  }

  lemma RemoveFree(ring: seq<int>, base: int, i: nat)
    requires Ordered(ring, base) && 1 <= i < |ring|
    ensures FreeBlocks(Removed(ring, i)) == FreeBlocks(ring) - {ring[i]}
  {
    hide Removed;
    var r := Removed(ring, i);
    forall j | 1 <= j < |ring| && j != i ensures ring[j] in FreeBlocks(r) {
      assert ring[j] == r[if j < i then j else j - 1];
    }
  }

  // ----- the heap invariant

  /** One address-ordered cycle of free blocks through base; free and live blocks
      tile what was obtained from the system; no two free blocks touch. */
  ghost predicate HeapOk(base: int, ring: seq<int>, live: set<int>,
                         ptr: map<int, int>, size: map<int, int>, owner: map<int, int>)
  {
    && Ordered(ring, base) && Linked(ring, ptr) && Apart(ring, size)
    && live !! FreeBlocks(ring) && Tiled(FreeBlocks(ring) + live, size, owner)
    && forall u :: u in owner ==> base < u
  }

  lemma BlockFacts(base: int, ring: seq<int>, live: set<int>, ptr: map<int, int>, size: map<int, int>, owner: map<int, int>, a: int)
    requires HeapOk(base, ring, live, ptr, size, owner) && a in FreeBlocks(ring) + live
    ensures BlockOk(a, size, owner) && base < a && owner[a] == a
    ensures a in live ==> a !in ring
  {
    assert BlockOk(a, size, owner);
    assert a in owner && owner[a] == a;
  }

  // ----- what free does to it

  /** HeapOk, except that block t of the ring may touch the block after it. */
  ghost predicate NearlyOk(base: int, ring: seq<int>, live: set<int>,
                           ptr: map<int, int>, size: map<int, int>, owner: map<int, int>, t: nat)
  {
    && Ordered(ring, base) && Linked(ring, ptr) && t + 1 < |ring|
    && base in size && size[base] == 0 && (forall i :: 0 <= i < |ring| && i != t ==> GapAt(ring, size, i))
    && live !! FreeBlocks(ring) && Tiled(FreeBlocks(ring) + live, size, owner)
    && forall u :: u in owner ==> base < u
  }

  /** A freed block swallows its right neighbour exactly when they touch. */
  ghost predicate Absorbs(ring: seq<int>, size: map<int, int>, t: nat, bp: int) {
    t + 1 < |ring| && bp in size && bp + size[bp] == ring[t + 1]
  }

  lemma InsertBlock(base: int, ring: seq<int>, live: set<int>, ptr: map<int, int>, size: map<int, int>, owner: map<int, int>, t: nat, bp: int)
    requires HeapOk(base, ring, live, ptr, size, owner) && bp in live && Slot(ring, t, bp) && !Absorbs(ring, size, t, bp)
    requires LinkAt(ring, ptr, t)
    ensures NearlyOk(base, Inserted(ring, t, bp, false), live - {bp}, ptr[bp := ptr[ring[t]]][ring[t] := bp], size, owner, t)
  {
    hide Tiled, Linked, Inserted;
    var r := Inserted(ring, t, bp, false);
    InsertOrdered(ring, base, t, bp, false);
    InsertLinked(ring, base, ptr, t, bp, false);
    InsertFree(ring, t, bp, false);
    BlockFacts(base, ring, live, ptr, size, owner, bp);
    assert FreeBlocks(r) + (live - {bp}) == FreeBlocks(ring) + live;
    forall i | 0 <= i < |r| && i != t ensures GapAt(r, size, i) {
      if i == t + 1 {
        if t + 1 < |ring| { Disjoint(FreeBlocks(ring) + live, size, owner, bp, ring[t + 1]); }
      } else {
        assert GapAt(ring, size, if i < t then i else i - 1);
      }
    }
    assert GapAt(ring, size, 0);
  }

  lemma InsertAbsorbing(base: int, ring: seq<int>, live: set<int>, ptr: map<int, int>, size: map<int, int>, owner: map<int, int>, t: nat, bp: int)
    requires HeapOk(base, ring, live, ptr, size, owner) && bp in live && Slot(ring, t, bp) && Absorbs(ring, size, t, bp)
    requires LinkAt(ring, ptr, t + 1) && ring[t + 1] in size
    ensures var next := ring[t + 1];
            && Reowned(owner, next, size[next], bp).Keys == owner.Keys
            && NearlyOk(base, Inserted(ring, t, bp, true), live - {bp}, ptr[bp := ptr[next]][ring[t] := bp],
                        size[bp := size[bp] + size[next]], Reowned(owner, next, size[next], bp), t)
  {
    hide Tiled, Linked, Inserted;
    var r, next := Inserted(ring, t, bp, true), ring[t + 1];
    assert LinkAt(ring, ptr, t) by { assert Linked(ring, ptr); LinkedAt(ring, ptr, t); }
    InsertOrdered(ring, base, t, bp, true);
    InsertLinked(ring, base, ptr, t, bp, true);
    InsertFree(ring, t, bp, true);
    assert next in FreeBlocks(ring);
    BlockFacts(base, ring, live, ptr, size, owner, bp);
    BlockFacts(base, ring, live, ptr, size, owner, next);
    MergeBlocks(FreeBlocks(ring) + live, size, owner, bp, next);
    assert next !in FreeBlocks(r);
    assert FreeBlocks(r) + (live - {bp}) == FreeBlocks(ring) + live - {next};
    assert GapAt(ring, size, 0) && GapAt(ring, size, t + 1);
    var size' := size[bp := size[bp] + size[next]];
    forall i | 0 <= i < |r| && i != t ensures GapAt(r, size', i) {
      if i != t + 1 { assert GapAt(ring, size, i); }
    }
  }

  lemma LinkedAt(ring: seq<int>, ptr: map<int, int>, i: nat)
    requires Linked(ring, ptr) && i < |ring|
    ensures LinkAt(ring, ptr, i)
  {
  }

  lemma StaysApart(base: int, ring: seq<int>, live: set<int>, ptr: map<int, int>, size: map<int, int>, owner: map<int, int>, t: nat)
    requires NearlyOk(base, ring, live, ptr, size, owner, t)
    requires ring[t] in size ==> ring[t] + size[ring[t]] != ring[t + 1]
    ensures HeapOk(base, ring, live, ptr, size, owner)
  {
    hide Linked, Tiled;
    if t > 0 {
      assert ring[t] in FreeBlocks(ring) && ring[t + 1] in FreeBlocks(ring);
      Disjoint(FreeBlocks(ring) + live, size, owner, ring[t], ring[t + 1]);
    }
    assert GapAt(ring, size, t);
  }

  lemma MergeLeft(base: int, ring: seq<int>, live: set<int>, ptr: map<int, int>, size: map<int, int>, owner: map<int, int>, t: nat)
    requires NearlyOk(base, ring, live, ptr, size, owner, t)
    requires ring[t] in size && ring[t + 1] in size && ring[t] + size[ring[t]] == ring[t + 1]
    requires LinkAt(ring, ptr, t + 1)
    ensures var p, bp := ring[t], ring[t + 1];
            && Reowned(owner, bp, size[bp], p).Keys == owner.Keys
            && HeapOk(base, Removed(ring, t + 1), live, ptr[p := ptr[bp]], size[p := size[p] + size[bp]],
                      Reowned(owner, bp, size[bp], p))
  {
    hide Linked, Removed;
    var p, bp, r := ring[t], ring[t + 1], Removed(ring, t + 1);
    RemoveOrdered(ring, base, t + 1);
    RemoveLinked(ring, base, ptr, t + 1);
    RemoveFree(ring, base, t + 1);
    assert p in FreeBlocks(ring) && bp in FreeBlocks(ring);
    assert BlockOk(p, size, owner) && BlockOk(bp, size, owner);
    MergeBlocks(FreeBlocks(ring) + live, size, owner, p, bp);
    assert FreeBlocks(r) + live == FreeBlocks(ring) + live - {bp};
    var size' := size[p := size[p] + size[bp]];
    forall i | 0 <= i < |r| ensures GapAt(r, size', i) {
      assert GapAt(ring, size, if i < t then i else i + 1);
    }
  }

  lemma SizeAt(ring: seq<int>, size: map<int, int>, i: nat)
    requires Apart(ring, size) && i < |ring|
    ensures ring[i] in size
  {
    assert GapAt(ring, size, i);
  }

  lemma NextIsBlock(base: int, ring: seq<int>, live: set<int>, ptr: map<int, int>, size: map<int, int>, owner: map<int, int>, i: nat)
    requires HeapOk(base, ring, live, ptr, size, owner) && 1 <= i < |ring|
    ensures ring[i] in size && size[ring[i]] >= 1
  {
    assert ring[i] in FreeBlocks(ring);
    assert BlockOk(ring[i], size, owner);
  }

  lemma NearlyBlocks(base: int, ring: seq<int>, live: set<int>, ptr: map<int, int>, size: map<int, int>, owner: map<int, int>, t: nat)
    requires NearlyOk(base, ring, live, ptr, size, owner, t)
    ensures forall a :: a in live ==> a in size && a != ring[t] && a != ring[t + 1]
    ensures ring[t + 1] in size && size[ring[t + 1]] >= 1 && ring[t + 1] in owner && owner[ring[t + 1]] == ring[t + 1]
    ensures ring[t] in size ==> size[ring[t]] >= 0
  {
    assert ring[t + 1] in FreeBlocks(ring);
    assert BlockOk(ring[t + 1], size, owner);
    if t > 0 { assert ring[t] in FreeBlocks(ring) && BlockOk(ring[t], size, owner); }
    forall a | a in live ensures a in size && a != ring[t] && a != ring[t + 1] {
      assert BlockOk(a, size, owner);
      assert a in owner;
    }
  }

  lemma ReownedAt(owner: map<int, int>, a: int, n: int, b: int, u: int)
    requires a <= u < a + n
    ensures u in Reowned(owner, a, n, b) && Reowned(owner, a, n, b)[u] == b
  {
    assert Within(u, a, n);
  }

  /** The place of bp in the ring. */
  lemma FindsSlot(ring: seq<int>, base: int, bp: int) returns (t: nat)
    requires Ordered(ring, base) && base < bp && bp !in ring
    ensures Slot(ring, t, bp)
  {
    t := 0;
    while t + 1 < |ring| && ring[t + 1] < bp
      invariant t < |ring| && ring[t] < bp
    {
      t := t + 1;
    }
  }

  // ----- what malloc does to it

  lemma TakeWhole(base: int, ring: seq<int>, live: set<int>, ptr: map<int, int>, size: map<int, int>, owner: map<int, int>, i: nat)
    requires HeapOk(base, ring, live, ptr, size, owner) && 1 <= i < |ring| && LinkAt(ring, ptr, i)
    ensures HeapOk(base, Removed(ring, i), live + {ring[i]}, ptr[ring[i - 1] := ptr[ring[i]]], size, owner)
  {
    hide Linked, Removed, Tiled;
    var r := Removed(ring, i);
    RemoveOrdered(ring, base, i);
    RemoveLinked(ring, base, ptr, i);
    RemoveFree(ring, base, i);
    assert ring[i] in FreeBlocks(ring);
    assert FreeBlocks(r) + (live + {ring[i]}) == FreeBlocks(ring) + live;
    NextIsBlock(base, ring, live, ptr, size, owner, i);
    assert GapAt(ring, size, i);
    forall j | 0 <= j < |r| ensures GapAt(r, size, j) {
      assert GapAt(ring, size, if j < i then j else j + 1);
    }
  }

  lemma TakeTail(base: int, ring: seq<int>, live: set<int>, ptr: map<int, int>, size: map<int, int>, owner: map<int, int>, i: nat, n: int)
    requires HeapOk(base, ring, live, ptr, size, owner) && 1 <= i < |ring| && ring[i] in size && 0 < n < size[ring[i]]
    ensures var a := ring[i]; var b := a + size[a] - n;
            && b !in live && b !in ring && Reowned(owner, b, n, b).Keys == owner.Keys
            && HeapOk(base, ring, live + {b}, ptr, size[a := size[a] - n][b := n], Reowned(owner, b, n, b))
  {
    hide Linked, Tiled, BlockOk, Reowned, Apart;
    var a := ring[i];
    var b := a + size[a] - n;
    assert a in FreeBlocks(ring);
    BlockFacts(base, ring, live, ptr, size, owner, a);
    SplitBlock(FreeBlocks(ring) + live, size, owner, a, n);
    assert FreeBlocks(ring) + (live + {b}) == FreeBlocks(ring) + live + {b};
    assert b !in ring;
    ShrinkApart(ring, base, size, i, n);
  }

  lemma ShrinkApart(ring: seq<int>, base: int, size: map<int, int>, i: nat, n: int)
    requires Ordered(ring, base) && Apart(ring, size) && 1 <= i < |ring| && ring[i] in size && 0 < n < size[ring[i]]
    requires ring[i] + size[ring[i]] - n !in ring
    ensures Apart(ring, size[ring[i] := size[ring[i]] - n][ring[i] + size[ring[i]] - n := n])
  {
    var size' := size[ring[i] := size[ring[i]] - n][ring[i] + size[ring[i]] - n := n];
    forall j | 0 <= j < |ring| ensures GapAt(ring, size', j) {
      assert GapAt(ring, size, j);
    }
    assert GapAt(ring, size', 0);
  }

  /** Memory fresh from the system: above base and not part of any block. */
  ghost predicate Fresh(base: int, owner: map<int, int>, a: int, n: int) {
    base < a && n >= 1 && forall u :: a <= u < a + n ==> u !in owner
  }

  lemma AddCore(base: int, ring: seq<int>, live: set<int>, ptr: map<int, int>, size: map<int, int>, owner: map<int, int>, a: int, n: int)
    requires HeapOk(base, ring, live, ptr, size, owner) && Fresh(base, owner, a, n)
    ensures a !in live && Reowned(owner, a, n, a).Keys == owner.Keys + Units(a, n)
    ensures HeapOk(base, ring, live + {a}, ptr, size[a := n], Reowned(owner, a, n, a))
  {
    hide Linked;
    AddBlock(FreeBlocks(ring) + live, size, owner, a, n);
    assert FreeBlocks(ring) + (live + {a}) == FreeBlocks(ring) + live + {a};
    var size' := size[a := n];
    forall j | 0 <= j < |ring| ensures ring[j] != a && GapAt(ring, size', j) {
      assert GapAt(ring, size, j);
      assert j > 0 ==> ring[j] in FreeBlocks(ring);
    }
  }

  /** Position of the block d + 1 links after position f. */
  function After(ring: seq<int>, f: nat, d: nat): nat
    requires f < |ring| && d < |ring|
  {
    if f + 1 + d < |ring| then f + 1 + d else f + 1 + d - |ring|
  }

  // ----- sizes, in 32-bit arithmetic

  /** Units malloc asks for: a header and the rounded-up bytes. */
  function UnitsFor(nbytes: nat): (n: nat)
    ensures n >= 1
  {
    (nbytes + HEADER - 1) % UINT / HEADER + 1
  }

  /** A block of that many units holds nbytes exactly when the rounding does not
      wrap around, that is for all requests below 2^32 - 7. */
  lemma UnitsHoldBytes(nbytes: nat)
    requires nbytes < UINT
    ensures (UnitsFor(nbytes) - 1) * HEADER >= nbytes <==> nbytes < UINT - 7
    ensures nbytes < UINT - 7 ==> (UnitsFor(nbytes) - 1) * HEADER < nbytes + HEADER
  {
  }

  /** The largest request there is gets a header and no bytes at all. */
  lemma LargestRequestIsEmpty()
    ensures UnitsFor(UINT - 1) == 1
  {
  }

  function CoreUnits(nu: nat): nat {
    if nu < MIN_CORE then MIN_CORE else nu
  }

  /** At least what is needed, and at least 4096 units, and no more than that. */
  lemma CoreIsLeast(nu: nat)
    ensures CoreUnits(nu) >= nu && CoreUnits(nu) >= 4096 && (CoreUnits(nu) == nu || CoreUnits(nu) == 4096)
  {
  }

  /** The int that sbrk receives for nu * sizeof(Header). */
  function SbrkArgument(nu: nat): int {
    var bytes := nu * HEADER % UINT;
    if bytes < UINT / 2 then bytes else bytes - UINT
  }

  /** morecore asks the system for the memory it goes on to use exactly when the
      request is below 2 GB less one unit, or so large that rounding it up wraps. */
  lemma SbrkAsksForCore(nbytes: nat)
    requires nbytes < UINT
    ensures SbrkArgument(CoreUnits(UnitsFor(nbytes))) == CoreUnits(UnitsFor(nbytes)) * HEADER <==>
            nbytes <= UINT / 2 - 16 || UINT - 7 <= nbytes
  {
  }

  /** Steps from position k to position t going round the ring. */
  function Distance(ring: seq<int>, k: nat, t: nat): nat
    requires k < |ring| && t < |ring|
  {
    if k <= t then t - k else |ring| - k + t
  }

  class Heap {
    const base: int
    var ptr: map<int, int>
    var size: map<int, int>
    var freep: Option<int>
    ghost var ring: seq<int>
    ghost var live: set<int>
    ghost var owner: map<int, int>

    constructor (base: int)
      ensures Valid() && this.base == base && freep.None?
    {
      this.base := base;
      ptr, size, freep := map[], map[], None;
      ring, live, owner := [], {}, map[];
    }

    ghost predicate Valid()
      reads this
    {
      match freep
      case None => live == {} && owner == map[]
      case Some(p) => HeapOk(base, ring, live, ptr, size, owner) && p in ring
    }

    /** The search of free: the free block after which bp belongs. */
    method FindPlace(bp: int) returns (p: int, ghost t: nat)
      requires Valid() && freep.Some? && base < bp && bp !in ring
      ensures Slot(ring, t, bp) && p == ring[t]
    {
      t := FindsSlot(ring, base, bp);
      p := freep.value;
      ghost var k :| 0 <= k < |ring| && ring[k] == p;
      while true
        invariant 0 <= k < |ring| && p == ring[k]
        decreases Distance(ring, k, t)
      {
        assert LinkAt(ring, ptr, k);
        if bp > p && bp < ptr[p] {
          assert k == t;
          return;
        }
        if p >= ptr[p] && (bp > p || bp < ptr[p]) {
          assert k == t;
          return;
        }
        p := ptr[p];
        k := Next(ring, k);
      }
    }

    /** free up to the second test: bp takes over its right neighbour if they
        touch, and is linked to what follows; p's own link is still to be set. */
    method JoinRight(bp: int, p: int, ghost t: nat)
      requires Valid() && freep.Some? && bp in live && Slot(ring, t, bp) && p == ring[t]
      modifies this`ptr, this`size, this`ring, this`live, this`owner
      ensures NearlyOk(base, ring, live, ptr[p := bp], size, owner, t) && ring[t] == p && ring[t + 1] == bp
      ensures live == old(live) - {bp} && owner.Keys == old(owner.Keys)
      ensures bp in old(size) && bp in size && size[bp] >= old(size[bp])
      ensures forall a :: a in old(size) && a != bp ==> a in size && size[a] == old(size[a])
      ensures p in size && bp in ptr
    {
      hide Linked, Tiled, Inserted, Apart, NearlyOk;
      BlockFacts(base, ring, live, ptr, size, owner, bp);
      LinkedAt(ring, ptr, t);
      LinkedAt(ring, ptr, Next(ring, t));
      SizeAt(ring, size, t);
      SizeAt(ring, size, Next(ring, t));
      var next := ptr[p];
      if bp + size[bp] == next {
        InsertAbsorbing(base, ring, live, ptr, size, owner, t, bp);
        NextIsBlock(base, ring, live, ptr, size, owner, t + 1);
        owner := Reowned(owner, next, size[next], bp);
        size := size[bp := size[bp] + size[next]];
        ptr := ptr[bp := ptr[next]];
        ring := Inserted(ring, t, bp, true);
      } else {
        InsertBlock(base, ring, live, ptr, size, owner, t, bp);
        ptr := ptr[bp := next];
        ring := Inserted(ring, t, bp, false);
      }
      live := live - {bp};
    }

    /** The rest of free: p takes over bp if they touch, else links to it. */
    method JoinLeft(bp: int, p: int, ghost t: nat)
      requires NearlyOk(base, ring, live, ptr[p := bp], size, owner, t) && ring[t] == p && ring[t + 1] == bp
      requires p in size && bp in size && bp in ptr
      modifies this`ptr, this`size, this`ring, this`owner, this`freep
      ensures Valid() && freep == Some(p) && owner.Keys == old(owner.Keys)
      ensures forall a :: a in live ==> a in old(size) && a in size && size[a] == old(size[a])
      ensures bp in owner && owner[bp] in ring && owner[bp] in size && size[owner[bp]] >= old(size[bp])
    {
      hide Linked, Inserted, Removed, Apart, HeapOk, Reowned;
      assert LinkAt(ring, ptr[p := bp], t + 1) by { LinkedAt(ring, ptr[p := bp], t + 1); }
      assert p != bp;
      NearlyBlocks(base, ring, live, ptr[p := bp], size, owner, t);
      if p + size[p] == bp {
        MergeLeft(base, ring, live, ptr[p := bp], size, owner, t);
        ReownedAt(owner, bp, size[bp], p, bp);
        owner := Reowned(owner, bp, size[bp], p);
        size := size[p := size[p] + size[bp]];
        assert ptr[p := bp][p := ptr[bp]] == ptr[p := ptr[bp]];
        ptr := ptr[p := ptr[bp]];
        ring := Removed(ring, t + 1);
        assert ring[t] == p;
      } else {
        StaysApart(base, ring, live, ptr[p := bp], size, owner, t);
        ptr := ptr[p := bp];
      }
      freep := Some(p);
    }

    /** free, for the block whose header is bp = ap - 1. */
    method Free(bp: int)
      requires Valid() && bp in live
      modifies this
      ensures Valid() && freep.Some? && live == old(live) - {bp} && owner.Keys == old(owner.Keys)
      ensures forall a :: a in live ==> a in old(size) && a in size && size[a] == old(size[a])
      ensures bp in old(size) && bp in owner && owner[bp] in ring && owner[bp] in size && size[owner[bp]] >= old(size[bp])
    {
      hide Linked, Tiled, Apart, NearlyOk, FreeBlocks;
      BlockFacts(base, ring, live, ptr, size, owner, bp);
      forall a | a in live ensures a in size { BlockFacts(base, ring, live, ptr, size, owner, a); }
      var p; ghost var t;
      p, t := FindPlace(bp);
      JoinRight(bp, p, t);
      JoinLeft(bp, p, t);
    }

    /** morecore.  `answer` is what sbrk returns: None when it refuses, otherwise
        the first of the fresh units.  Afterwards some free block fits nu units. */
    method Morecore(nu: nat, answer: Option<int>) returns (p: Option<int>)
      requires Valid() && freep.Some?
      requires answer.Some? ==> Fresh(base, owner, answer.value, CoreUnits(nu))
      modifies this
      ensures Valid() && freep.Some? && live == old(live)
      ensures p == if answer.None? then None else freep
      ensures forall a :: a in live ==> a in old(size) && a in size && size[a] == old(size[a])
      ensures answer.None? ==> ptr == old(ptr) && size == old(size) && freep == old(freep) && ring == old(ring) && owner == old(owner)
      ensures answer.Some? ==> owner.Keys == old(owner.Keys) + Units(answer.value, CoreUnits(nu))
      ensures answer.Some? ==> exists i :: Fits(ring, size, i, nu)
    {
      hide HeapOk, Reowned, Units, BlockOk;
      forall a | a in live ensures a in size { LiveHasSize(base, ring, live, ptr, size, owner, a); }
      if answer.None? { return None; }
      var hp, n := answer.value, CoreUnits(nu);
      AddCore(base, ring, live, ptr, size, owner, hp, n);
      size := size[hp := n];
      owner := Reowned(owner, hp, n, hp);
      live := live + {hp};
      Free(hp);
      ghost var i :| 0 <= i < |ring| && ring[i] == owner[hp];
      assert Fits(ring, size, i, nu);
      p := freep;
    }

    /** Some free block is large enough. */
    ghost predicate SomeFits(nunits: nat)
      reads this
    {
      freep.Some? && exists i :: Fits(ring, size, i, nunits)
    }

    /** malloc.  morecore is called only if no free block fits, and once, and the search
        ends: after the heap has grown, one more lap of the ring reaches a block that
        fits. */
    method Malloc(nbytes: nat, answer: Option<int>) returns (r: Option<int>, calls: nat)
      requires Valid()
      requires answer.Some? ==> Fresh(base, owner, answer.value, CoreUnits(UnitsFor(nbytes)))
      modifies this
      ensures Valid() && calls == if old(SomeFits(UnitsFor(nbytes))) then 0 else 1
      ensures calls == 0 ==> r.Some? && old(freep).Some?
      ensures calls == 0 ==>
                FromFirstFit(old(ring), old(size), old(freep).value, UnitsFor(nbytes), r.value - 1)
      ensures owner.Keys == old(owner.Keys) +
                (if calls == 1 && answer.Some? then Units(answer.value, CoreUnits(UnitsFor(nbytes))) else {})
      ensures r.Some? ==> r.value - 1 !in old(live) && live == old(live) + {r.value - 1}
                          && r.value - 1 in size && size[r.value - 1] == UnitsFor(nbytes)
      ensures forall a :: a in old(live) ==> a in old(size) && a in size && size[a] == old(size[a])
      ensures r.None? ==> live == old(live) && calls == 1 && answer.None?
                          && freep.Some? && forall i :: 0 <= i < |ring| ==> !Fits(ring, size, i, UnitsFor(nbytes))
    {
      hide HeapOk, Reowned, Units, Fresh, After, UnitsFor;
      var nunits := UnitsFor(nbytes);
      forall a | a in live ensures a in size { LiveHasSize(base, ring, live, ptr, size, owner, a); }
      if freep.None? { Start(); }
      calls := 0;
      var prevp, p;
      ghost var f, d;
      prevp, p, f, d := Restart();
      while true
        invariant Valid() && freep.Some? && live == old(live) && calls <= 1
        invariant forall a :: a in live ==> a in old(size) && a in size && size[a] == old(size[a])
        invariant owner.Keys == old(owner.Keys) + (if calls == 1 && answer.Some? then Units(answer.value, CoreUnits(nunits)) else {})
        invariant calls == 0 && answer.Some? ==> Fresh(base, owner, answer.value, CoreUnits(nunits))
        invariant if calls == 0 then SomeFits(nunits) == old(SomeFits(nunits)) else !old(SomeFits(nunits))
        invariant calls == 0 && old(freep).Some? ==> ring == old(ring) && size == old(size) && freep == old(freep)
        invariant Searched(f, d, prevp, p, nunits)
        invariant calls == 1 ==> answer.Some? && exists i :: Fits(ring, size, i, nunits)
        decreases 1 - calls, |ring| - d
      {
        SearchFacts(f, d, prevp, p, nunits);
        if size[p] >= nunits {
          assert calls == 0 ==> FirstFit(ring, size, freep.value, f, d, nunits, p + size[p] - nunits);
          r := Take(p, prevp, nunits, After(ring, f, d));
          return;
        }
        if p == freep.value {
          NothingFits(f, d, prevp, p, nunits);
          assert calls == 0;
          var q := Morecore(nunits, answer);
          calls := 1;
          if q.None? { return None, calls; }
          prevp, p, f, d := Restart();
        } else {
          SearchOn(f, d, prevp, p, nunits);
          prevp, p := p, ptr[p];
          d := d + 1;
        }
      }
    }

    /** First call: the ring is base alone. */
    method Start()
      requires Valid() && freep.None?
      modifies this
      ensures Valid() && freep == Some(base) && live == old(live) && owner == old(owner)
      ensures forall nunits :: nunits >= 1 ==> !SomeFits(nunits)
    {
      ptr, size, freep := map[base := base], map[base := 0], Some(base);
      ring := [base];
      assert LinkAt(ring, ptr, 0) && GapAt(ring, size, 0);
    }

    /** The search is at the block d + 1 links after freep, and no block it has
        passed since freep fits. */
    ghost predicate Searched(f: nat, d: nat, prevp: int, p: int, nunits: nat)
      reads this
    {
      && f < |ring| && d < |ring| && freep == Some(ring[f])
      && p == ring[After(ring, f, d)] && LinkAt(ring, ptr, After(ring, f, d))
      && prevp == (if d == 0 then ring[f] else ring[After(ring, f, d - 1)])
      && forall e :: 0 <= e < d ==> !Fits(ring, size, After(ring, f, e), nunits)
    }

    method Restart() returns (prevp: int, p: int, ghost f: nat, ghost d: nat)
      requires Valid() && freep.Some?
      ensures forall nunits :: Searched(f, d, prevp, p, nunits)
      ensures d == 0
    {
      f :| 0 <= f < |ring| && ring[f] == freep.value;
      d := 0;
      LinkedAt(ring, ptr, f);
      prevp, p := freep.value, ptr[freep.value];
      LinkedAt(ring, ptr, After(ring, f, 0));
    }

    lemma SearchFacts(f: nat, d: nat, prevp: int, p: int, nunits: nat)
      requires Valid() && freep.Some? && Searched(f, d, prevp, p, nunits) && nunits >= 1
      ensures p in size && p in ptr
      ensures Fits(ring, size, After(ring, f, d), nunits) <==> size[p] >= nunits
      ensures size[p] >= nunits ==> After(ring, f, d) >= 1 && prevp == ring[After(ring, f, d) - 1]
    {
      assert GapAt(ring, size, After(ring, f, d)) && GapAt(ring, size, 0);
    }

    lemma NothingFits(f: nat, d: nat, prevp: int, p: int, nunits: nat)
      requires Valid() && freep.Some? && Searched(f, d, prevp, p, nunits) && p == freep.value
      requires !Fits(ring, size, After(ring, f, d), nunits)
      ensures forall i :: 0 <= i < |ring| ==> !Fits(ring, size, i, nunits)
    {
      assert d == |ring| - 1;
      forall i | 0 <= i < |ring| ensures !Fits(ring, size, i, nunits) {
        var e := if i > f then i - f - 1 else i - f - 1 + |ring|;
        assert After(ring, f, e) == i;
      }
    }

    lemma SearchOn(f: nat, d: nat, prevp: int, p: int, nunits: nat)
      requires Valid() && freep.Some? && Searched(f, d, prevp, p, nunits) && p != freep.value
      requires !Fits(ring, size, After(ring, f, d), nunits)
      ensures d + 1 < |ring| && p in ptr && Searched(f, d + 1, p, ptr[p], nunits)
    {
      assert After(ring, f, |ring| - 1) == f;
      LinkedAt(ring, ptr, After(ring, f, d + 1));
    }

    /** The block at position i goes to the caller, whole or its upper end. */
    method Take(p: int, prevp: int, nunits: nat, ghost i: nat) returns (r: Option<int>)
      requires Valid() && freep.Some? && 1 <= i < |ring| && p == ring[i] && prevp == ring[i - 1]
      requires p in size && p in ptr && size[p] >= nunits >= 1
      modifies this
      ensures r == Some(p + old(size[p]) - nunits + 1) && freep == Some(prevp)
      ensures Valid() && r.Some? && r.value - 1 !in old(live) && live == old(live) + {r.value - 1}
      ensures r.value - 1 in size && size[r.value - 1] == nunits && owner.Keys == old(owner.Keys)
      ensures forall a :: a in old(live) ==> a in old(size) && a in size && size[a] == old(size[a])
    {
      hide Linked, Tiled, Reowned, Apart, Removed;
      forall a | a in live ensures a in size && a != p { BlockFacts(base, ring, live, ptr, size, owner, a); }
      LinkedAt(ring, ptr, i);
      if size[p] == nunits {
        TakeWhole(base, ring, live, ptr, size, owner, i);
        ptr := ptr[prevp := ptr[p]];
        ring := Removed(ring, i);
        assert ring[i - 1] == prevp;
        live := live + {p};
        r := Some(p + 1);
      } else {
        TakeTail(base, ring, live, ptr, size, owner, i, nunits);
        var q := p + (size[p] - nunits);
        owner := Reowned(owner, q, nunits, q);
        size := size[p := size[p] - nunits][q := nunits];
        live := live + {q};
        r := Some(q + 1);
      }
      freep := Some(prevp);
    }
  }

  lemma LiveHasSize(base: int, ring: seq<int>, live: set<int>, ptr: map<int, int>, size: map<int, int>, owner: map<int, int>, a: int)
    requires HeapOk(base, ring, live, ptr, size, owner) && a in live
    ensures a in size
  {
    assert BlockOk(a, size, owner);
  }

  /** Block i of the ring is large enough. */
  ghost predicate Fits(ring: seq<int>, size: map<int, int>, i: nat, n: nat) {
    i < |ring| && ring[i] in size && size[ring[i]] >= n
  }

  /** The block d + 1 links after the one at f, where the search starts, is the first that
      fits n units, and a is where its last n units begin. */
  ghost predicate FirstFit(ring: seq<int>, size: map<int, int>, start: int, f: nat, d: nat, n: nat, a: int) {
    && f < |ring| && d < |ring| && ring[f] == start && Fits(ring, size, After(ring, f, d), n)
    && (forall e :: 0 <= e < d ==> !Fits(ring, size, After(ring, f, e), n))
    && a == ring[After(ring, f, d)] + size[ring[After(ring, f, d)]] - n
  }

  ghost predicate FromFirstFit(ring: seq<int>, size: map<int, int>, start: int, n: nat, a: int) {
    exists f: nat, d: nat :: FirstFit(ring, size, start, f, d, n, a)
  }

  // ----- what the invariant means

  ghost function TotalUnits(blocks: set<int>, size: map<int, int>): int
    requires forall a :: a in blocks ==> a in size
  {
    if a :| a in blocks then size[a] + TotalUnits(blocks - {a}, size) else 0
  }

  lemma {:induction false} CountUnits(a: int, n: nat)
    ensures |Units(a, n)| == n
  {
    if n > 0 {
      CountUnits(a, n - 1);
      assert forall u :: a <= u < a + n ==> Within(u, a, n);
      var m := n - 1;
      assert forall u :: a <= u < a + m ==> Within(u, a, m);
      assert Units(a, n) == Units(a, n - 1) + {a + n - 1};
    } else {
      assert Units(a, n) == {};
    }
  }

  lemma WithoutBlock(blocks: set<int>, size: map<int, int>, owner: map<int, int>, a: int)
    requires Tiled(blocks, size, owner) && a in blocks && BlockOk(a, size, owner)
    ensures var rest := owner - Units(a, size[a]);
            Tiled(blocks - {a}, size, rest) && |owner| == size[a] + |rest|
  {
    var rest := owner - Units(a, size[a]);
    assert forall u :: a <= u < a + size[a] ==> Within(u, a, size[a]);
    forall b | b in blocks - {a} ensures BlockOk(b, size, rest) {
      assert BlockOk(b, size, owner);
      forall u | b <= u < b + size[b] ensures u in rest && rest[u] == b {
        assert u in owner && owner[u] == b;
      }
    }
    forall u | u in rest ensures UnitOk(u, blocks - {a}, size, rest) {
      assert UnitOk(u, blocks, size, owner);
      assert BlockOk(owner[u], size, owner);
    }
    assert owner.Keys == rest.Keys + Units(a, size[a]);
    CountUnits(a, size[a]);
  }

  /** No unit is lost and none is counted twice. */
  lemma {:induction false} UnitsAddUp(blocks: set<int>, size: map<int, int>, owner: map<int, int>)
    requires Tiled(blocks, size, owner) && forall a :: a in blocks ==> a in size
    ensures TotalUnits(blocks, size) == |owner|
    decreases |blocks|
  {
    if exists a :: a in blocks {
      var a :| a in blocks && TotalUnits(blocks, size) == size[a] + TotalUnits(blocks - {a}, size);
      assert BlockOk(a, size, owner);
      WithoutBlock(blocks, size, owner, a);
      UnitsAddUp(blocks - {a}, size, owner - Units(a, size[a]));
    } else {
      assert forall u :: u in owner ==> UnitOk(u, blocks, size, owner);
      assert owner == map[];
    }
  }

  ghost predicate IsFree(ring: seq<int>, owner: map<int, int>, u: int)
    requires |ring| >= 1
  {
    u in owner && owner[u] in FreeBlocks(ring)
  }

  /** Coalescing is complete: a free block is a maximal run of free units. */
  lemma FreeBlocksAreMaximal(base: int, ring: seq<int>, live: set<int>, ptr: map<int, int>, size: map<int, int>, owner: map<int, int>, i: nat)
    requires HeapOk(base, ring, live, ptr, size, owner) && 1 <= i < |ring|
    ensures ring[i] in size && forall u :: ring[i] <= u < ring[i] + size[ring[i]] ==> IsFree(ring, owner, u)
    ensures !IsFree(ring, owner, ring[i] - 1) && !IsFree(ring, owner, ring[i] + size[ring[i]])
  {
    var a := ring[i];
    assert a in FreeBlocks(ring) && BlockOk(a, size, owner);
    if IsFree(ring, owner, a - 1) {
      assert UnitOk(a - 1, FreeBlocks(ring) + live, size, owner);
      var j :| 1 <= j < |ring| && ring[j] == owner[a - 1];
      NeighboursApart(base, ring, live, ptr, size, owner, j, i);
    }
    if IsFree(ring, owner, a + size[a]) {
      assert UnitOk(a + size[a], FreeBlocks(ring) + live, size, owner);
      var j :| 1 <= j < |ring| && ring[j] == owner[a + size[a]];
      NeighboursApart(base, ring, live, ptr, size, owner, i, j);
    }
  }

  lemma NeighboursApart(base: int, ring: seq<int>, live: set<int>, ptr: map<int, int>, size: map<int, int>, owner: map<int, int>, i: nat, j: nat)
    requires HeapOk(base, ring, live, ptr, size, owner) && 1 <= i < |ring| && 1 <= j < |ring| && ring[i] < ring[j]
    ensures ring[i] in size && ring[i] + size[ring[i]] < ring[j]
  {
    assert GapAt(ring, size, i);
    assert i < j;
  }
}
