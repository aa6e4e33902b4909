/** The log and the file system together: what a crash leaves is not only some
    earlier disk, it is all the files of an earlier moment. */
module CrashFiles {
  import opened Blocks
  import opened FsState
  import opened LogMachine
  import W = FsWrite

  /** The inodes a disk stores. */
  function InodesOf(sb: Super, blocks: seq<Block>): seq<Inode>
    requires forall i :: 0 <= i < sb.ninodes ==> IBlock(i) < |blocks|
  {
    seq(sb.ninodes, i requires 0 <= i < sb.ninodes => DinodeAt(blocks[IBlock(i)], i % IPB))
  }

  /** The log area lies among the reserved blocks, apart from inodes and map. */
  ghost predicate LogApart(l: Layout, sb: Super, reserved: set<nat>) {
    && (forall k :: 0 <= k < sb.size && l.InLog(k) ==> k in reserved)
    && (forall i :: 0 <= i < sb.ninodes ==> !l.InLog(IBlock(i)))
    && (forall b :: 0 <= b < sb.size ==> !l.InLog(BBlock(sb, b)))
  }

  /** A disk that holds a file system at rest. */
  ghost predicate HoldsFiles(sb: Super, reserved: set<nat>, blocks: seq<Block>, owner: map<nat, Slot>) {
    && (forall i :: 0 <= i < sb.ninodes ==> IBlock(i) < |blocks|)
    && FsOk(sb, Fs(blocks, InodesOf(sb, blocks)), reserved, owner)
  }

  /** Every file, named by its inode number, has the same bytes on both disks. */
  ghost predicate SameFiles(sb: Super, blocks: seq<Block>, blocks': seq<Block>, reserved: set<nat>, owner: map<nat, Slot>)
    requires HoldsFiles(sb, reserved, blocks, owner) && HoldsFiles(sb, reserved, blocks', owner)
  {
    InodesOf(sb, blocks') == InodesOf(sb, blocks) &&
    forall i :: 0 <= i < sb.ninodes ==>
      FileOk(sb, Fs(blocks, InodesOf(sb, blocks)), i) && FileOk(sb, Fs(blocks', InodesOf(sb, blocks')), i) &&
      Content(sb, Fs(blocks', InodesOf(sb, blocks')), i) == Content(sb, Fs(blocks, InodesOf(sb, blocks)), i)
  }

  /** Block ownership does not depend on the log area. */
  lemma OwnedApart(l: Layout, sb: Super, reserved: set<nat>, owner: map<nat, Slot>, fs: Fs, fs': Fs)
    requires LogApart(l, sb, reserved) && SameHome(l, fs'.blocks, fs.blocks) && fs'.inodes == fs.inodes
    requires Owned(sb, fs, reserved, owner, {}, {})
    ensures Owned(sb, fs', reserved, owner, {}, {}) && SameAddrs(fs, fs') && SameIndirect(fs, fs', owner)
  {
    hide Ref, BitAt;
    forall c | c in owner ensures c < sb.size && fs'.blocks[c] == fs.blocks[c] {
      assert OwnerOk(sb, fs, reserved, owner, {}, {}, c);
    }
    forall b | 0 <= b < sb.size ensures BitOk(sb, fs', reserved, owner, {}, b) {
      assert BitOk(sb, fs, reserved, owner, {}, b);
    }
    Reframed(sb, fs, fs', reserved, owner, {}, {}, {});
  }

  lemma FileApart(l: Layout, sb: Super, reserved: set<nat>, owner: map<nat, Slot>, fs: Fs, fs': Fs, i: nat)
    requires LogApart(l, sb, reserved) && SameHome(l, fs'.blocks, fs.blocks) && fs'.inodes == fs.inodes
    requires FsOk(sb, fs, reserved, owner) && i < sb.ninodes
    ensures Shaped(sb, fs') && Shaped(sb, fs) && FileOk(sb, fs, i) && FileOk(sb, fs', i)
    ensures Content(sb, fs', i) == Content(sb, fs, i)
  {
    hide Ref, DinodeAt, Owned;
    OwnedApart(l, sb, reserved, owner, fs, fs');
    OwnedShaped(sb, fs, reserved, owner);
    OwnedShaped(sb, fs', reserved, owner);
    forall s | IsSlot(sb, s) ensures Ref(fs', s) == Ref(fs, s) { SameRef(sb, fs, fs', reserved, owner, {}, {}, s); }
    assert FileOk(sb, fs, i);
    W.SameRefsDense(sb, fs, fs', i, BlocksFor(fs.inodes[i].size));
    forall k | 0 <= k < fs.inodes[i].size ensures FileByte(sb, fs', i, k) == FileByte(sb, fs, i, k) {
      assert k / BSIZE < BlocksFor(fs.inodes[i].size);
      assert BlockOf(sb, fs, i, k / BSIZE) != 0;
      ByteApart(l, sb, reserved, owner, fs, fs', i, k);
    }
  }

  lemma ByteApart(l: Layout, sb: Super, reserved: set<nat>, owner: map<nat, Slot>, fs: Fs, fs': Fs, i: nat, k: nat)
    requires LogApart(l, sb, reserved) && SameHome(l, fs'.blocks, fs.blocks) && fs'.inodes == fs.inodes
    requires Owned(sb, fs, reserved, owner, {}, {}) && Shaped(sb, fs') && i < sb.ninodes && k < MAXFILE * BSIZE
    requires Ref(fs', DataSlot(i, k / BSIZE)) == Ref(fs, DataSlot(i, k / BSIZE)) != 0
    ensures FileByte(sb, fs', i, k) == FileByte(sb, fs, i, k)
  {
    hide Ref;
    var s := DataSlot(i, k / BSIZE);
    assert SlotOk(fs, owner, s) && OwnerOk(sb, fs, reserved, owner, {}, {}, Ref(fs, s));
  }

  /** Disks that agree outside the log hold the same files. */
  lemma SameHomeSameFiles(l: Layout, sb: Super, reserved: set<nat>, owner: map<nat, Slot>, blocks: seq<Block>, blocks': seq<Block>)
    requires LogApart(l, sb, reserved) && SameHome(l, blocks', blocks) && HoldsFiles(sb, reserved, blocks, owner)
    ensures HoldsFiles(sb, reserved, blocks', owner) && SameFiles(sb, blocks, blocks', reserved, owner)
  {
    hide Owned, Dense, Synced, FileByte, DinodeAt;
    var fs, fs' := Fs(blocks, InodesOf(sb, blocks)), Fs(blocks', InodesOf(sb, blocks'));
    assert fs'.inodes == fs.inodes;
    OwnedApart(l, sb, reserved, owner, fs, fs');
    OwnedShaped(sb, fs, reserved, owner);
    OwnedShaped(sb, fs', reserved, owner);
    forall i | 0 <= i < sb.ninodes
      ensures FileOk(sb, fs, i) && FileOk(sb, fs', i) && Content(sb, fs', i) == Content(sb, fs, i)
    {
      FileApart(l, sb, reserved, owner, fs, fs', i);
    }
  }

  /** Suppose a settled point holds a proper file system, and so does what the
      running system sees at every commit after it.  Then whenever the machine
      stops, however often recovery was interrupted, recovery yields a proper
      file system, with the free map exact and every file as it was at the last
      of those commits, or at the settled point if there was none. */
  lemma FilesSurviveCrash(l: Layout, run: seq<State>, steps: seq<Step>, i: nat, k: nat, sb: Super, reserved: set<nat>,
                          owners: seq<map<nat, Slot>>) returns (j: nat)
    requires IsRun(l, run, steps) && Inv(l, run[0]) && i <= k < |run| && Settled(run[i])
    requires LogApart(l, sb, reserved) && |owners| == |run|
    requires GoodDisk(l, run[i].disk) && HoldsFiles(sb, reserved, Logical(l, run[i]), owners[i])
    requires forall q :: i < q <= k && CommitPointAt(run, steps, q) ==> HoldsFiles(sb, reserved, View(run[q]), owners[q])
    ensures i <= j <= k && (j == i || CommitPointAt(run, steps, j))
    ensures forall c :: j < c <= k ==> !CommitPointAt(run, steps, c)
    ensures GoodDisk(l, run[j].disk) && GoodDisk(l, run[k].disk) && HoldsFiles(sb, reserved, Logical(l, run[j]), owners[j])
    ensures j > i ==> Logical(l, run[j]) == View(run[j])
    ensures HoldsFiles(sb, reserved, Recovered(l, run[k].disk), owners[j])
    ensures SameFiles(sb, Logical(l, run[j]), Recovered(l, run[k].disk), reserved, owners[j])
  {
    hide HoldsFiles, SameFiles, LogApart, Settled, Recovered, SameHome, View;
    j := CrashSafety(l, run, steps, i, k);
    SameHomeSameFiles(l, sb, reserved, owners[j], Logical(l, run[j]), Recovered(l, run[k].disk));
  }
}
