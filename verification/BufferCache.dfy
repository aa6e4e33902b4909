/** The buffer cache of bio.c: an array of buffers on a circular doubly linked
    list in order of last release, in front of the disk. */
module BufferCache {
  import opened Blocks

  const NBUF := 30
  const HEAD := 30             // bcache.head, next to the NBUF buffers
  const NO_DEV := 0xFFFF_FFFF  // dev = -1 as an unsigned int

  /** The disk sector a buffer stands for. */
  datatype Key = Key(dev: nat, sector: nat)

  /** struct buf; prev and next are positions in the array. */
  datatype Buf = Buf(busy: bool, valid: bool, dirty: bool, key: Key, prev: nat, next: nat, data: Block)

  // ----- the list

  /** Node i of the ring: the head, the buffers in order, and the head again. */
  function At(order: seq<nat>, i: nat): nat
    requires i <= |order| + 1
  {
    if i == 0 || i == |order| + 1 then HEAD else order[i - 1]
  }

  ghost predicate LinkAt(buf: seq<Buf>, order: seq<nat>, i: nat)
    requires |buf| == NBUF + 1
  {
    && i <= |order| && At(order, i) <= HEAD && At(order, i + 1) <= HEAD
    && buf[At(order, i)].next == At(order, i + 1) && buf[At(order, i + 1)].prev == At(order, i)
  }

  ghost predicate Linked(buf: seq<Buf>, order: seq<nat>)
    requires |buf| == NBUF + 1
  {
    forall i :: 0 <= i <= |order| ==> LinkAt(buf, order, i)
  }

  ghost predicate InOrder(order: seq<nat>) {
    && (forall i :: 0 <= i < |order| ==> order[i] < NBUF)
    && (forall i, j :: 0 <= i < j < |order| ==> order[i] != order[j])
  }

  function SetNext(buf: seq<Buf>, b: nat, n: nat): seq<Buf>
    requires b < |buf|
  {
    buf[b := buf[b].(next := n)]
  }

  function SetPrev(buf: seq<Buf>, b: nat, p: nat): seq<Buf>
    requires b < |buf|
  {
    buf[b := buf[b].(prev := p)]
  }

  function Without(order: seq<nat>, p: nat): (r: seq<nat>)
    requires p < |order|
    ensures |r| == |order| - 1
    ensures forall i :: 0 <= i < p ==> r[i] == order[i]
    ensures forall i :: p <= i < |r| ==> r[i] == order[i + 1]
  {
    order[..p] + order[p + 1..]
  }

  /** The first two assignments of brelse. */
  function Unlink(buf: seq<Buf>, b: nat): (r: seq<Buf>)
    requires b < |buf| && buf[b].next < |buf| && buf[b].prev < |buf|
    ensures |r| == |buf|
  {
    SetNext(SetPrev(buf, buf[b].next, buf[b].prev), buf[b].prev, buf[b].next)
  }

  /** Insertion after the head: the four assignments shared by brelse and binit. */
  function PushFront(buf: seq<Buf>, b: nat): (r: seq<Buf>)
    requires |buf| == NBUF + 1 && b < HEAD && buf[HEAD].next < |buf|
    ensures |r| == |buf|
  {
    var first := buf[HEAD].next;
    var linked := SetPrev(SetNext(buf, b, first), b, HEAD);
    SetNext(SetPrev(linked, first, b), HEAD, b)
  }

  /** Only list pointers differ. */
  ghost predicate SameButLinks(buf: seq<Buf>, buf': seq<Buf>) {
    |buf'| == |buf| && forall i :: 0 <= i < |buf| ==> buf'[i].(prev := 0, next := 0) == buf[i].(prev := 0, next := 0)
  }

  lemma LinkedAt(buf: seq<Buf>, order: seq<nat>, i: nat)
    requires |buf| == NBUF + 1 && Linked(buf, order) && i <= |order|
    ensures LinkAt(buf, order, i)
  {
  }

  lemma LinksDifferTwice(a: seq<Buf>, b: seq<Buf>, c: seq<Buf>)
    requires SameButLinks(a, b) && SameButLinks(b, c)
    ensures SameButLinks(a, c)
  {
  }

  lemma UnlinkWorks(buf: seq<Buf>, order: seq<nat>, p: nat)
    requires |buf| == NBUF + 1 && Linked(buf, order) && InOrder(order) && p < |order|
    requires LinkAt(buf, order, p) && LinkAt(buf, order, p + 1)
    ensures Linked(Unlink(buf, order[p]), Without(order, p)) && InOrder(Without(order, p))
    ensures order[p] !in Without(order, p) && SameButLinks(buf, Unlink(buf, order[p]))
  {
    hide Without;
    var r, buf' := Without(order, p), Unlink(buf, order[p]);
    forall i | 0 <= i <= |r| ensures LinkAt(buf', r, i) {
      var j := if i <= p then i else i + 1;
      assert LinkAt(buf, order, j);
      if i == p { assert LinkAt(buf, order, p + 1); }
      assert At(r, i) == At(order, j);
      assert At(r, i + 1) == At(order, if i + 1 <= p then i + 1 else i + 2);
    }
  }

  lemma PushFrontWorks(buf: seq<Buf>, order: seq<nat>, b: nat)
    requires |buf| == NBUF + 1 && Linked(buf, order) && InOrder(order) && b < NBUF && b !in order && LinkAt(buf, order, 0)
    ensures Linked(PushFront(buf, b), [b] + order) && InOrder([b] + order) && SameButLinks(buf, PushFront(buf, b))
  {
    var r, buf' := [b] + order, PushFront(buf, b);
    forall i | 0 <= i <= |r| ensures LinkAt(buf', r, i) {
      if i >= 2 { assert LinkAt(buf, order, i - 1); }
      if i >= 1 { assert At(r, i) == if i == 1 then b else At(order, i - 1); }
      assert i + 1 >= 2 ==> At(r, i + 1) == At(order, i);
    }
  }

  // ----- agreement with the disk

  /** No sector of a real device is in two buffers. */
  ghost predicate Unique(buf: seq<Buf>)
    requires |buf| == NBUF + 1
  {
    forall i, j :: 0 <= i < j < NBUF && buf[i].key.dev != NO_DEV ==> buf[i].key != buf[j].key
  }

  ghost predicate BufOk(buf: seq<Buf>, disk: map<Key, Block>, i: nat)
    requires i < |buf|
  {
    && (buf[i].dirty ==> buf[i].valid)
    && (buf[i].valid ==> buf[i].key in disk && buf[i].key.dev != NO_DEV)
    && (buf[i].valid && !buf[i].dirty && !buf[i].busy ==> buf[i].key in disk && buf[i].data == disk[buf[i].key])
  }

  /** Buffer i holds the contents of a sector. */
  ghost predicate Holds(buf: seq<Buf>, i: nat, key: Key) {
    i < NBUF && i < |buf| && buf[i].valid && buf[i].key == key
  }

  /** What the system currently takes a sector to contain. */
  ghost function Contents(buf: seq<Buf>, disk: map<Key, Block>, key: Key): Block
    requires key in disk
  {
    if i: nat :| Holds(buf, i, key) then buf[i].data else disk[key]
  }

  lemma ContentsHeld(buf: seq<Buf>, disk: map<Key, Block>, i: nat, key: Key)
    requires |buf| == NBUF + 1 && Unique(buf) && Holds(buf, i, key) && key in disk && key.dev != NO_DEV
    ensures Contents(buf, disk, key) == buf[i].data
  {
  }

  ghost predicate Coherent(buf: seq<Buf>, disk: map<Key, Block>)
    requires |buf| == NBUF + 1
  {
    Unique(buf) && forall i :: 0 <= i < NBUF ==> BufOk(buf, disk, i)
  }

  /** Two caches show the same contents for every sector. */
  ghost predicate SameContents(buf: seq<Buf>, disk: map<Key, Block>, buf': seq<Buf>, disk': map<Key, Block>) {
    disk'.Keys == disk.Keys && forall key :: key in disk ==> Contents(buf', disk', key) == Contents(buf, disk, key)
  }

  /** Changing flags and data of one buffer that stays for the same sector. */
  lemma OneBufferChanges(buf: seq<Buf>, disk: map<Key, Block>, b: nat, nb: Buf, key: Key)
    requires |buf| == NBUF + 1 && Coherent(buf, disk) && b < NBUF && nb.key == buf[b].key && nb.valid == buf[b].valid
    requires key in disk
    ensures Unique(buf[b := nb]) && (BufOk(buf[b := nb], disk, b) ==> Coherent(buf[b := nb], disk))
    ensures Contents(buf[b := nb], disk, key) == if buf[b].valid && key == buf[b].key then nb.data else Contents(buf, disk, key)
  {
    var buf' := buf[b := nb];
    if BufOk(buf', disk, b) {
      forall i | 0 <= i < NBUF ensures BufOk(buf', disk, i) { assert BufOk(buf, disk, i); }
    }
    if i: nat :| Holds(buf, i, key) {
      assert BufOk(buf, disk, i);
      assert Holds(buf', i, key);
      ContentsHeld(buf, disk, i, key);
      ContentsHeld(buf', disk, i, key);
      if buf[b].valid && key == buf[b].key { assert i == b; }
    } else {
      assert !Holds(buf, b, key);
      forall i: nat ensures !Holds(buf', i, key) { assert !Holds(buf, i, key); }
    }
  }

  /** Giving a clean idle buffer to a sector that was not cached loses nothing. */
  lemma RecycleKeepsContents(buf: seq<Buf>, disk: map<Key, Block>, b: nat, nb: Buf, key: Key)
    requires |buf| == NBUF + 1 && Coherent(buf, disk) && b < NBUF && !buf[b].busy && !buf[b].dirty && !nb.valid
    requires key in disk && (forall i :: 0 <= i < NBUF && i != b ==> buf[i].key != nb.key)
    ensures Contents(buf[b := nb], disk, key) == Contents(buf, disk, key)
  {
    var buf' := buf[b := nb];
    assert BufOk(buf, disk, b);
    if i: nat :| Holds(buf, i, key) {
      assert BufOk(buf, disk, i);
      ContentsHeld(buf, disk, i, key);
      if i == b {
        forall j: nat ensures !Holds(buf', j, key) { }
      } else {
        assert Holds(buf', i, key);
        ContentsHeld(buf', disk, i, key);
      }
    } else {
      forall j: nat ensures !Holds(buf', j, key) { assert !Holds(buf, j, key); }
    }
  }

  /** Reading a sector into its buffer, or writing the buffer out, shows no change. */
  lemma SyncKeepsContents(buf: seq<Buf>, disk: map<Key, Block>, b: nat, data: Block, key: Key)
    requires |buf| == NBUF + 1 && Coherent(buf, disk) && b < NBUF && buf[b].key in disk && buf[b].key.dev != NO_DEV
    requires data == if buf[b].valid then buf[b].data else disk[buf[b].key]
    requires key in disk
    ensures var buf' := buf[b := buf[b].(valid := true, dirty := false, data := data)];
            Contents(buf', disk[buf[b].key := data], key) == Contents(buf, disk, key)
  {
    var buf', disk' := buf[b := buf[b].(valid := true, dirty := false, data := data)], disk[buf[b].key := data];
    if key == buf[b].key {
      assert Holds(buf', b, key);
      ContentsHeld(buf', disk', b, key);
      if buf[b].valid { ContentsHeld(buf, disk, b, key); } else { assert forall i: nat :: !Holds(buf, i, key); }
    } else if i: nat :| Holds(buf, i, key) {
      assert BufOk(buf, disk, i);
      assert Holds(buf', i, key);
      ContentsHeld(buf, disk, i, key);
      ContentsHeld(buf', disk', i, key);
    } else {
      forall i: nat ensures !Holds(buf', i, key) { assert !Holds(buf, i, key); }
    }
  }

  // ----- the cache

  datatype GetResult = Got(b: nat) | MustSleep(b: nat) | Panic

  class Cache {
    var buf: seq<Buf>
    var disk: map<Key, Block>
    /** The buffers, most recently released first, and when each was released. */
    ghost var order: seq<nat>
    ghost var released: seq<nat>
    ghost var clock: nat

    ghost predicate Ring()
      reads this
    {
      && |buf| == NBUF + 1 && Linked(buf, order) && InOrder(order) && (forall b :: 0 <= b < NBUF ==> b in order)
      && |released| == NBUF && (forall b :: 0 <= b < NBUF ==> released[b] < clock)
      && forall i, j :: 0 <= i < j < |order| ==> released[order[i]] > released[order[j]]
    }

    ghost predicate Valid()
      reads this
    {
      Ring() && Coherent(buf, disk)
    }

    /** No buffer is for this sector. */
    ghost predicate NotCached(key: Key)
      reads this
    {
      |buf| == NBUF + 1 && forall i :: 0 <= i < NBUF ==> buf[i].key != key
    }

    predicate Recyclable(b: nat)
      reads this
      requires b < |buf|
    {
      !buf[b].busy && !buf[b].dirty
    }

    /** The clean idle buffer that was released longest ago. */
    ghost predicate LeastRecent(b: nat)
      reads this
    {
      && |buf| == NBUF + 1 && |released| == NBUF && b < NBUF && Recyclable(b)
      && forall c :: 0 <= c < NBUF && Recyclable(c) ==> released[b] <= released[c]
    }

    /** First loop of bget: forward through the list. */
    method FindSector(key: Key) returns (r: nat)
      requires Ring()
      ensures r == HEAD ==> NotCached(key)
      ensures r != HEAD ==> r < NBUF && buf[r].key == key
    {
      assert LinkAt(buf, order, 0);
      r := buf[HEAD].next;
      ghost var i := 1;
      while r != HEAD
        invariant 1 <= i <= |order| + 1 && r == At(order, i)
        invariant forall j :: 1 <= j < i ==> buf[At(order, j)].key != key
        decreases |order| + 1 - i
      {
        if buf[r].key == key { return; }
        assert LinkAt(buf, order, i);
        r := buf[r].next;
        i := i + 1;
      }
      assert i == |order| + 1;
      forall b | 0 <= b < NBUF ensures buf[b].key != key {
        assert b in order;
        var k :| 0 <= k < |order| && order[k] == b;
        assert At(order, k + 1) == b;
      }
    }

    /** Second loop: backward, for a buffer to recycle. */
    method FindVictim() returns (r: nat)
      requires Ring()
      ensures r == HEAD ==> forall b :: 0 <= b < NBUF ==> !Recyclable(b)
      ensures r != HEAD ==> LeastRecent(r)
    {
      assert LinkAt(buf, order, |order|);
      r := buf[HEAD].prev;
      ghost var i := |order|;
      while r != HEAD
        invariant 0 <= i <= |order| && r == At(order, i)
        invariant forall j :: i <= j < |order| ==> !Recyclable(order[j])
        decreases i
      {
        if !buf[r].busy && !buf[r].dirty {
          forall c | 0 <= c < NBUF && Recyclable(c) ensures released[r] <= released[c] {
            assert c in order;
            var k :| 0 <= k < |order| && order[k] == c;
            assert k < i;
          }
          return;
        }
        assert LinkAt(buf, order, i - 1);
        r := buf[r].prev;
        i := i - 1;
      }
      assert i == 0;
      forall b | 0 <= b < NBUF ensures !Recyclable(b) {
        assert b in order;
      }
    }

    /** binit.  The buffers go to the front one after the other. */
    constructor (disk: map<Key, Block>)
      ensures Valid() && this.disk == disk && forall b :: 0 <= b < NBUF ==> !buf[b].busy && !buf[b].valid && !buf[b].dirty
    {
      this.disk := disk;
      var empty := Buf(false, false, false, Key(NO_DEV, 0), HEAD, HEAD, ZeroBlock());
      buf := seq(NBUF + 1, i => empty);
      order, clock := [], 0;
      released := [];
      new;
      hide PushFront;
      var b := 0;
      assert LinkAt(buf, order, 0);
      while b < NBUF
        invariant b <= NBUF && |buf| == NBUF + 1 && Linked(buf, order) && InOrder(order) && this.disk == disk
        invariant |order| == b == clock == |released|
        invariant forall i :: 0 <= i < b ==> order[i] == b - 1 - i && released[i] == i
        invariant forall i :: 0 <= i < |buf| ==> buf[i].(prev := 0, next := 0) == empty.(prev := 0, next := 0)
      {
        assert LinkAt(buf, order, 0);
        PushFrontWorks(buf, order, b);
        buf := PushFront(buf, b);
        order, released, clock := [b] + order, released + [b], clock + 1;
        b := b + 1;
      }
      forall c | 0 <= c < NBUF ensures c in order { assert order[NBUF - 1 - c] == c; }
      forall i | 0 <= i < NBUF ensures !buf[i].busy && !buf[i].valid && !buf[i].dirty && buf[i].key.dev == NO_DEV {
        assert buf[i].(prev := 0, next := 0) == empty.(prev := 0, next := 0);
      }
    }

    /** bget, up to the point where the caller would sleep or panic. */
    method Bget(key: Key) returns (r: GetResult)
      requires Valid() && key.dev != NO_DEV
      modifies this`buf
      ensures Valid() && SameContents(old(buf), disk, buf, disk)
      ensures match r
              case MustSleep(b) => b < NBUF && buf[b].key == key && buf[b].busy && buf == old(buf)
              case Panic => NotCached(key) && (forall b :: 0 <= b < NBUF ==> !Recyclable(b)) && buf == old(buf)
              case Got(b) =>
                b < NBUF && !old(buf)[b].busy &&
                if old(buf)[b].key == key then buf == old(buf)[b := old(buf[b]).(busy := true)]
                else old(NotCached(key)) && old(LeastRecent(b))
                     && buf == old(buf)[b := old(buf[b]).(key := key, busy := true, valid := false, dirty := false)]
    {
      hide Contents;
      var b := FindSector(key);
      if b != HEAD {
        if buf[b].busy { return MustSleep(b); }
        ghost var before := buf;
        buf := buf[b := buf[b].(busy := true)];
        forall k | k in disk ensures Contents(buf, disk, k) == Contents(before, disk, k) {
          OneBufferChanges(before, disk, b, buf[b], k);
          if before[b].valid && k == before[b].key { ContentsOf(before, disk, b); }
        }
        KeepsRing(before);
        assert BufOk(before, disk, b);
        KeepsCoherent(before, disk, b);
        return Got(b);
      }
      b := FindVictim();
      if b == HEAD { return Panic; }
      ghost var before := buf;
      buf := buf[b := buf[b].(key := key, busy := true, valid := false, dirty := false)];
      forall k | k in disk ensures Contents(buf, disk, k) == Contents(before, disk, k) {
        RecycleKeepsContents(before, disk, b, buf[b], k);
      }
      KeepsRing(before);
      KeepsCoherent(before, disk, b);
      return Got(b);
    }

    /** bread: a busy buffer with the latest contents of the sector. */
    method Bread(key: Key) returns (r: GetResult)
      requires Valid() && key.dev != NO_DEV
      modifies this`buf
      ensures Valid() && SameContents(old(buf), disk, buf, disk)
      ensures r.MustSleep? ==> r.b < NBUF && buf[r.b].key == key && buf[r.b].busy && buf == old(buf)
      ensures r.Panic? ==> key !in disk || forall b :: 0 <= b < NBUF ==> !Recyclable(b)
      ensures r.Got? ==> r.b < NBUF && buf[r.b].busy && buf[r.b].valid && buf[r.b].key == key && key in disk
      ensures r.Got? ==> buf[r.b].data == Contents(old(buf), disk, key)
      ensures r.Got? ==> forall i :: 0 <= i < NBUF && i != r.b ==> buf[i] == old(buf[i])
    {
      hide Contents;
      r := Bget(key);
      if !r.Got? { return; }
      var b := r.b;
      if !buf[b].valid {
        if key !in disk { return Panic; }
        ghost var before := buf;
        buf := buf[b := buf[b].(valid := true, data := disk[key])];
        assert disk[key := disk[key]] == disk;
        forall k | k in disk ensures Contents(buf, disk, k) == Contents(before, disk, k) {
          assert BufOk(before, disk, b);
          SyncKeepsContents(before, disk, b, disk[key], k);
        }
        KeepsRing(before);
        KeepsCoherent(before, disk, b);
      }
      ContentsOf(buf, disk, b);
    }

    /** The caller of bread changes the data of the buffer it holds. */
    method Modify(b: nat, data: Block)
      requires Valid() && b < NBUF && buf[b].busy && buf[b].valid
      modifies this`buf
      ensures Valid() && buf == old(buf)[b := old(buf[b]).(data := data)]
      ensures forall k :: k in disk ==>
                Contents(buf, disk, k) == if k == buf[b].key then data else Contents(old(buf), disk, k)
    {
      hide Contents;
      ghost var before := buf;
      buf := buf[b := buf[b].(data := data)];
      assert BufOk(before, disk, b);
      KeepsRing(before);
      KeepsCoherent(before, disk, b);
      forall k | k in disk ensures Contents(buf, disk, k) == if k == buf[b].key then data else Contents(before, disk, k) {
        OneBufferChanges(before, disk, b, buf[b], k);
      }
    }

    /** log_write's B_DIRTY: from now on the buffer is not recycled. */
    method Pin(b: nat)
      requires Valid() && b < NBUF && buf[b].busy && buf[b].valid
      modifies this`buf
      ensures Valid() && buf == old(buf)[b := old(buf[b]).(dirty := true)] && SameContents(old(buf), disk, buf, disk)
    {
      hide Contents;
      ghost var before := buf;
      buf := buf[b := buf[b].(dirty := true)];
      assert BufOk(before, disk, b);
      KeepsRing(before);
      KeepsCoherent(before, disk, b);
      forall k | k in disk ensures Contents(buf, disk, k) == Contents(before, disk, k) {
        OneBufferChanges(before, disk, b, buf[b], k);
        if k == buf[b].key { ContentsOf(before, disk, b); }
      }
    }

    /** bwrite; false is its panic.  The sector and the buffer agree afterwards. */
    method Bwrite(b: nat) returns (ok: bool)
      requires Valid() && b < NBUF && buf[b].valid
      modifies this`buf, this`disk
      ensures Valid() && ok == old(buf[b].busy) && SameContents(old(buf), old(disk), buf, disk)
      ensures ok ==> disk == old(disk)[buf[b].key := buf[b].data] && buf == old(buf)[b := old(buf[b]).(dirty := false)]
      ensures !ok ==> buf == old(buf) && disk == old(disk)
    {
      hide Contents;
      if !buf[b].busy { return false; }
      ghost var before, diskBefore := buf, disk;
      assert BufOk(before, disk, b);
      disk := disk[buf[b].key := buf[b].data];
      buf := buf[b := buf[b].(dirty := false, valid := true)];
      KeepsRing(before);
      KeepsCoherent(before, diskBefore, b);
      forall k | k in diskBefore ensures Contents(buf, disk, k) == Contents(before, diskBefore, k) {
        SyncKeepsContents(before, diskBefore, b, before[b].data, k);
      }
      return true;
    }

    /** brelse; false is its panic.  What the caller changed must have been written
        or pinned.  The buffer becomes the most recently released. */
    method Brelse(b: nat) returns (ok: bool)
      requires Valid() && b < NBUF
      requires buf[b].valid && !buf[b].dirty ==> buf[b].key in disk && buf[b].data == disk[buf[b].key]
      modifies this`buf, this`order, this`released, this`clock
      ensures Valid() && ok == old(buf[b].busy) && SameContents(old(buf), disk, buf, disk)
      ensures !ok ==> buf == old(buf) && order == old(order) && released == old(released)
      ensures ok ==> SameButLinks(old(buf)[b := old(buf[b]).(busy := false)], buf) && order != [] && order[0] == b
      ensures ok ==> forall c :: 0 <= c < NBUF && c != b ==> released[c] == old(released[c]) && released[c] < released[b]
    {
      hide Contents;
      if !buf[b].busy { return false; }
      assert b in order;
      ghost var p :| 0 <= p < |order| && order[p] == b;
      MoveToFront(b, p);
      Unbusy(b);
      return true;
    }

    /** The pointer assignments of brelse. */
    method MoveToFront(b: nat, ghost p: nat)
      requires Valid() && p < |order| && order[p] == b
      modifies this`buf, this`order, this`released, this`clock
      ensures Valid() && SameContents(old(buf), disk, buf, disk) && SameButLinks(old(buf), buf)
      ensures order != [] && order[0] == b
      ensures forall c :: 0 <= c < NBUF && c != b ==> released[c] == old(released[c]) && released[c] < released[b]
    {
      hide Contents, Unlink, PushFront, Coherent, Without, SameContents, SameButLinks, Linked;
      LinkedAt(buf, order, p);
      LinkedAt(buf, order, p + 1);
      ghost var before, rest, mid := buf, Without(order, p), Unlink(buf, b);
      UnlinkWorks(buf, order, p);
      LinkedAt(mid, rest, 0);
      PushFrontWorks(mid, rest, b);
      LinksDifferTwice(buf, mid, PushFront(mid, b));
      StillSorted(order, released, p, clock);
      buf := Unlink(buf, b);
      buf := PushFront(buf, b);
      order, released, clock := [b] + rest, released[b := clock], clock + 1;
      LinksKeepContents(before, disk, buf);
    }

    /** b->flags &= ~B_BUSY */
    method Unbusy(b: nat)
      requires Valid() && b < NBUF
      requires buf[b].valid && !buf[b].dirty ==> buf[b].key in disk && buf[b].data == disk[buf[b].key]
      modifies this`buf
      ensures Valid() && SameContents(old(buf), disk, buf, disk) && buf == old(buf)[b := old(buf[b]).(busy := false)]
    {
      hide Contents;
      ghost var before := buf;
      buf := buf[b := buf[b].(busy := false)];
      assert BufOk(before, disk, b);
      KeepsRing(before);
      KeepsCoherent(before, disk, b);
      forall k | k in disk ensures Contents(buf, disk, k) == Contents(before, disk, k) {
        OneBufferChanges(before, disk, b, buf[b], k);
        if before[b].valid && k == buf[b].key { ContentsOf(before, disk, b); }
      }
    }

    lemma KeepsRing(before: seq<Buf>)
      requires |before| == |buf| == NBUF + 1 && Linked(before, order)
      requires forall i :: 0 <= i <= NBUF ==> buf[i].prev == before[i].prev && buf[i].next == before[i].next
      ensures Linked(buf, order)
    {
      forall i | 0 <= i <= |order| ensures LinkAt(buf, order, i) { assert LinkAt(before, order, i); }
    }

    /** Coherence after a change to buffer b alone. */
    lemma KeepsCoherent(before: seq<Buf>, diskBefore: map<Key, Block>, b: nat)
      requires |before| == |buf| == NBUF + 1 && Coherent(before, diskBefore) && b < NBUF
      requires forall i :: 0 <= i < NBUF && i != b ==> buf[i] == before[i]
      requires buf[b].key == before[b].key || forall i :: 0 <= i < NBUF && i != b ==> before[i].key != buf[b].key
      requires disk.Keys == diskBefore.Keys && forall k :: k in disk && k != buf[b].key ==> disk[k] == diskBefore[k]
      requires BufOk(buf, disk, b)
      requires disk == diskBefore || before[b].key.dev != NO_DEV
      ensures Coherent(buf, disk)
    {
      forall i | 0 <= i < NBUF ensures BufOk(buf, disk, i) {
        assert BufOk(before, diskBefore, i);
      }
    }
  }

  lemma ContentsOf(buf: seq<Buf>, disk: map<Key, Block>, b: nat)
    requires |buf| == NBUF + 1 && Coherent(buf, disk) && b < NBUF && buf[b].valid
    ensures buf[b].key in disk && Contents(buf, disk, buf[b].key) == buf[b].data
  {
    assert BufOk(buf, disk, b);
    assert Holds(buf, b, buf[b].key);
    ContentsHeld(buf, disk, b, buf[b].key);
  }

  /** The list plays no part in what the cache contains. */
  lemma LinksKeepContents(buf: seq<Buf>, disk: map<Key, Block>, buf': seq<Buf>)
    requires |buf| == NBUF + 1 && Coherent(buf, disk) && SameButLinks(buf, buf')
    ensures Coherent(buf', disk) && SameContents(buf, disk, buf', disk)
  {
    forall i | 0 <= i < NBUF ensures BufOk(buf', disk, i) && buf'[i].key == buf[i].key && buf'[i].data == buf[i].data && buf'[i].valid == buf[i].valid {
      assert BufOk(buf, disk, i);
      assert buf'[i].(prev := 0, next := 0) == buf[i].(prev := 0, next := 0);
    }
    forall k | k in disk ensures Contents(buf', disk, k) == Contents(buf, disk, k) {
      if i: nat :| Holds(buf, i, k) {
        assert BufOk(buf, disk, i);
        assert Holds(buf', i, k);
        ContentsHeld(buf, disk, i, k);
        ContentsHeld(buf', disk, i, k);
      } else {
        forall i: nat ensures !Holds(buf', i, k) { assert !Holds(buf, i, k); }
      }
    }
  }

  /** Releasing a buffer now puts it before all others in release order. */
  lemma StillSorted(order: seq<nat>, released: seq<nat>, p: nat, clock: nat)
    requires InOrder(order) && p < |order| && |released| == NBUF && (forall b :: 0 <= b < NBUF ==> b in order)
    requires (forall b :: 0 <= b < NBUF ==> released[b] < clock)
    requires forall i, j :: 0 <= i < j < |order| ==> released[order[i]] > released[order[j]]
    ensures var order', released' := [order[p]] + Without(order, p), released[order[p] := clock];
            && (forall b :: 0 <= b < NBUF ==> b in order')
            && forall i, j :: 0 <= i < j < |order'| ==> released'[order'[i]] > released'[order'[j]]
  {
    hide Without;
    var rest := Without(order, p);
    var order' := [order[p]] + rest;
    forall b | 0 <= b < NBUF ensures b in order' {
      assert b in order;
      var k :| 0 <= k < |order| && order[k] == b;
      if k != p { assert order'[if k < p then k + 1 else k] == b; } else { assert order'[0] == b; }
    }
  }
}
