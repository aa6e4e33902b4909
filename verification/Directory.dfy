/** Directories of fs.c: files of 16-byte entries that behave as a finite map
    from names of at most 14 bytes to inode numbers. */
module Directory {
  import opened Types
  import opened Blocks
  import opened FsLogged
  import opened FsState
  import opened FsWrite
  import FS = Inodes

  const DIRSIZ := 14
  const DIRENT := 16
  const T_DIR := 1

  /** A C string: its bytes before the NUL. */
  ghost predicate IsName(s: seq<Byte>) {
    forall i :: 0 <= i < |s| ==> s[i] != 0
  }

  /** The part of a name that counts. */
  function Key(s: seq<Byte>): seq<Byte> {
    if |s| < DIRSIZ then s else s[..DIRSIZ]
  }

  /** The name stored in a field: everything before the first NUL, if any. */
  function FieldName(field: seq<Byte>): seq<Byte> {
    if field == [] || field[0] == 0 then [] else [field[0]] + FieldName(field[1..])
  }

  /** strncpy into a field. */
  function Padded(s: seq<Byte>): (f: seq<Byte>)
    ensures |f| == DIRSIZ
  {
    Key(s) + seq(DIRSIZ - |Key(s)|, i => 0)
  }

  /** Names of up to 14 bytes are their own keys, and longer ones count by their first 14. */
  lemma KeysAgree(s: seq<Byte>, t: seq<Byte>)
    ensures |s| <= 14 ==> Key(s) == s
    ensures Key(s) == Key(t) <==> s == t || (|s| >= 14 && |t| >= 14 && s[..14] == t[..14])
  {
    if |s| == 14 { assert s[..14] == s; }
    if |t| == 14 { assert t[..14] == t; }
  }

  /** The name in a field is all of it before the first NUL. */
  lemma {:induction false} FieldNameIs(field: seq<Byte>)
    ensures var n := |FieldName(field)|;
            && n <= |field| && FieldName(field) == field[..n] && IsName(FieldName(field)) && (n < |field| ==> field[n] == 0)
  {
    if field != [] && field[0] != 0 {
      FieldNameIs(field[1..]);
      var n := |FieldName(field[1..])|;
      assert field[..n + 1] == [field[0]] + field[1..][..n];
    }
  }

  lemma {:induction false} FieldNameOfPadded(s: seq<Byte>, zeros: nat)
    requires IsName(s)
    ensures FieldName(s + seq(zeros, i => 0)) == s
  {
    var field := s + seq(zeros, i => 0);
    if s != [] {
      assert field[1..] == s[1..] + seq(zeros, i => 0);
      FieldNameOfPadded(s[1..], zeros);
    }
  }

  /** namecmp == 0, with the loop of strncmp. */
  method SameName(s: seq<Byte>, field: seq<Byte>) returns (same: bool)
    requires IsName(s) && |field| == DIRSIZ
    ensures same <==> Key(s) == FieldName(field)
  {
    var i := 0;
    while i < DIRSIZ && i < |s| && s[i] == field[i]
      invariant i <= DIRSIZ && i <= |s|
      invariant Key(s) == FieldName(field) <==> Key(s)[i..] == FieldName(field[i..])
    {
      assert Key(s)[i..] == [s[i]] + Key(s)[i + 1..];
      assert field[i..][1..] == field[i + 1..];
      i := i + 1;
    }
    if i == DIRSIZ {
      assert Key(s)[i..] == [] && field[i..] == [];
      return true;
    }
    if i < |s| { assert Key(s)[i..][0] == s[i]; }
    return (if i < |s| then s[i] else 0) == field[i];
  }

  // ----- a directory's bytes as entries

  ghost predicate IsEntry(c: seq<Byte>, k: nat) {
    DIRENT * k + DIRENT <= |c|
  }

  function EntryInum(c: seq<Byte>, k: nat): nat
    requires IsEntry(c, k)
  {
    c[DIRENT * k] as int + 0x100 * c[DIRENT * k + 1] as int
  }

  function EntryName(c: seq<Byte>, k: nat): seq<Byte>
    requires IsEntry(c, k)
  {
    FieldName(c[DIRENT * k + 2..DIRENT * k + DIRENT])
  }

  /** Entry k of a directory: two bytes for the inode number, low byte first, then fourteen
      for the name, in sixteen bytes from 16 k on. */
  lemma EntryPlace(c: seq<Byte>, k: nat)
    requires IsEntry(c, k)
    ensures 16 * k + 16 <= |c| && EntryInum(c, k) == c[16 * k] as int + 256 * c[16 * k + 1] as int
    ensures var name := EntryName(c, k);
            && |name| <= 14 && name == c[16 * k + 2..16 * k + 2 + |name|] && IsName(name)
            && (|name| < 14 ==> c[16 * k + 2 + |name|] == 0)
  {
    var field := c[16 * k + 2..16 * k + 16];
    FieldNameIs(field);
    var n := |FieldName(field)|;
    assert field[..n] == c[16 * k + 2..16 * k + 2 + n];
  }

  /** Entry k is in use and names `key`. */
  ghost predicate Names(c: seq<Byte>, k: nat, key: seq<Byte>) {
    IsEntry(c, k) && EntryInum(c, k) != 0 && EntryName(c, k) == key
  }

  /** A well-formed directory: whole entries, no name twice. */
  ghost predicate DirOk(c: seq<Byte>) {
    |c| % DIRENT == 0 && forall j, k, key :: Names(c, j, key) && Names(c, k, key) ==> j == k
  }

  /** The directory as a map. */
  ghost function Binding(c: seq<Byte>, key: seq<Byte>): Option<nat> {
    if k: nat :| Names(c, k, key) then Some(EntryInum(c, k)) else None
  }

  lemma BindingAt(c: seq<Byte>, k: nat, key: seq<Byte>)
    requires DirOk(c) && Names(c, k, key)
    ensures Binding(c, key) == Some(EntryInum(c, k))
  {
  }

  lemma NoBinding(c: seq<Byte>, key: seq<Byte>)
    requires forall k: nat :: !Names(c, k, key)
    ensures Binding(c, key) == None
  {
  }

  /** The bytes of an entry. */
  function EntryBytes(inum: Half, field: seq<Byte>): (e: seq<Byte>)
    requires |field| == DIRSIZ
    ensures |e| == DIRENT
  {
    [inum % 0x100, inum / 0x100] + field
  }

  /** Writing 16 bytes at an entry's place replaces that entry and no other. */
  lemma EntryWritten(c: seq<Byte>, k: nat, inum: Half, field: seq<Byte>, j: nat)
    requires |c| % DIRENT == 0 && DIRENT * k <= |c| && |field| == DIRSIZ
    ensures var c' := Splice(c, DIRENT * k, EntryBytes(inum, field));
            && |c'| % DIRENT == 0 && (IsEntry(c', j) <==> IsEntry(c, j) || j == k)
            && (IsEntry(c', j) ==> if j == k then EntryInum(c', j) == inum && EntryName(c', j) == FieldName(field)
                                   else EntryInum(c', j) == EntryInum(c, j) && EntryName(c', j) == EntryName(c, j))
  {
    hide FieldName;
    var e := EntryBytes(inum, field);
    var c' := Splice(c, DIRENT * k, e);
    assert |c'| == if DIRENT * k == |c| then |c| + DIRENT else |c|;
    forall b | 0 <= b < |c'| ensures c'[b] == if DIRENT * k <= b < DIRENT * k + DIRENT then e[b - DIRENT * k] else c[b] { }
    if IsEntry(c', j) {
      if j == k {
        assert c'[DIRENT * j + 2..DIRENT * j + DIRENT] == field;
      } else {
        assert DIRENT * j + DIRENT <= DIRENT * k || DIRENT * k + DIRENT <= DIRENT * j;
        assert c'[DIRENT * j + 2..DIRENT * j + DIRENT] == c[DIRENT * j + 2..DIRENT * j + DIRENT];
      }
    }
  }

  /** Filling an unused place with a name that is not there adds one binding. */
  lemma LinkAdds(c: seq<Byte>, k: nat, inum: Half, name: seq<Byte>)
    requires DirOk(c) && DIRENT * k <= |c| && (IsEntry(c, k) ==> EntryInum(c, k) == 0) && IsName(name) && inum != 0
    requires forall j: nat :: !Names(c, j, Key(name))
    ensures var c' := Splice(c, DIRENT * k, EntryBytes(inum, Padded(name)));
            && DirOk(c')
            && forall key :: Binding(c', key) == if key == Key(name) then Some(inum) else Binding(c, key)
  {
    hide Splice, EntryInum, EntryName;
    var c' := Splice(c, DIRENT * k, EntryBytes(inum, Padded(name)));
    FieldNameOfPadded(Key(name), DIRSIZ - |Key(name)|);
    forall j: nat, key ensures Names(c', j, key) <==> (j != k && Names(c, j, key)) || (j == k && key == Key(name)) {
      EntryWritten(c, k, inum, Padded(name), j);
    }
    EntryWritten(c, k, inum, Padded(name), k);
    assert DirOk(c');
    forall key ensures Binding(c', key) == if key == Key(name) then Some(inum) else Binding(c, key) {
      if key == Key(name) {
        BindingAt(c', k, key);
      } else if j: nat :| Names(c, j, key) {
        assert Names(c', j, key);
        BindingAt(c', j, key);
        BindingAt(c, j, key);
        EntryWritten(c, k, inum, Padded(name), j);
      } else {
        NoBinding(c', key);
      }
    }
  }

  /** Zeroing the entry found for a name removes that binding only. */
  lemma UnlinkRemoves(c: seq<Byte>, k: nat, key: seq<Byte>)
    requires DirOk(c) && Names(c, k, key)
    ensures var c' := Splice(c, DIRENT * k, EntryBytes(0, seq(DIRSIZ, i => 0)));
            && DirOk(c') && |c'| == |c|
            && forall other :: Binding(c', other) == if other == key then None else Binding(c, other)
  {
    hide EntryInum, EntryName;
    var zero: seq<Byte> := seq(DIRSIZ, i => 0);
    var c' := Splice(c, DIRENT * k, EntryBytes(0, zero));
    forall j: nat, other ensures Names(c', j, other) <==> j != k && Names(c, j, other) {
      EntryWritten(c, k, 0, zero, j);
    }
    assert DirOk(c') by { EntryWritten(c, k, 0, zero, k); }
    forall other ensures Binding(c', other) == if other == key then None else Binding(c, other) {
      if j: nat :| Names(c, j, other) && j != k {
        assert Names(c', j, other);
        BindingAt(c', j, other);
        BindingAt(c, j, other);
        EntryWritten(c, k, 0, zero, j);
      } else {
        NoBinding(c', other);
        if other != key { NoBinding(c, other); }
      }
    }
  }

  // ----- the operations

  /** Found(inum, off), Missing, or one of the panics of dirlookup. */
  datatype LookupResult = Found(inum: nat, off: nat) | Missing | LookupPanic

  datatype LinkResult = Linked | Exists | LinkPanic

  ghost function Dir(fs: FS.FileSystem, dp: nat): seq<Byte>
    reads fs
    requires FsOk(fs.sb, fs.Abs(), fs.reserved, fs.owner) && dp < fs.sb.ninodes
  {
    DirSized(fs.sb, fs.Abs(), fs.reserved, fs.owner, dp);
    Content(fs.sb, fs.Abs(), dp)
  }

  lemma DirSized(sb: Super, fs: Fs, reserved: set<nat>, owner: map<nat, Slot>, dp: nat)
    requires FsOk(sb, fs, reserved, owner) && dp < sb.ninodes
    ensures Shaped(sb, fs) && FileOk(sb, fs, dp) && fs.inodes[dp].size <= MAXFILE * BSIZE
  {
    assert FileOk(sb, fs, dp);
  }

  /** readi of one whole entry. */
  method ReadEntry(fs: FS.FileSystem, dp: nat, off: nat, ghost k: nat) returns (ok: bool, inum: nat, field: seq<Byte>)
    requires FsOk(fs.sb, fs.Abs(), fs.reserved, fs.owner) && dp < fs.sb.ninodes
    requires off == DIRENT * k && off < |Dir(fs, dp)| && fs.inodes[dp].kind != FS.T_DEV
    modifies fs`blocks, fs`inodes, fs`owner, fs`writes
    ensures fs.Abs() == old(fs.Abs()) && fs.owner == old(fs.owner) && fs.writes == old(fs.writes)
    ensures ok <==> IsEntry(Dir(fs, dp), k)
    ensures ok ==> inum == EntryInum(Dir(fs, dp), k) && |field| == DIRSIZ && FieldName(field) == EntryName(Dir(fs, dp), k)
  {
    hide FsOk, Content, FieldName;
    DirSized(fs.sb, fs.Abs(), fs.reserved, fs.owner, dp);
    ghost var c := Dir(fs, dp);
    var r := fs.Readi(dp, off, DIRENT);
    if !r.Read? || |r.data| != DIRENT { return false, 0, []; }
    assert r.data[0] == c[off] && r.data[1] == c[off + 1];
    assert r.data[2..] == c[DIRENT * k + 2..DIRENT * k + DIRENT];
    return true, r.data[0] as int + 0x100 * r.data[1] as int, r.data[2..];
  }

  /** dirlookup: the binding of the name, with the place of its entry. */
  method Dirlookup(fs: FS.FileSystem, dp: nat, name: seq<Byte>) returns (r: LookupResult)
    requires FsOk(fs.sb, fs.Abs(), fs.reserved, fs.owner) && dp < fs.sb.ninodes && IsName(name)
    modifies fs`blocks, fs`inodes, fs`owner, fs`writes
    ensures fs.Abs() == old(fs.Abs()) && fs.owner == old(fs.owner) && fs.writes == old(fs.writes)
    ensures r.LookupPanic? ==> fs.inodes[dp].kind != T_DIR || |Dir(fs, dp)| % DIRENT != 0
    ensures r.Missing? ==> forall k: nat :: !Names(Dir(fs, dp), k, Key(name))
    ensures r.Found? ==> r.off % DIRENT == 0 && Names(Dir(fs, dp), r.off / DIRENT, Key(name))
    ensures r.Found? ==> r.inum == EntryInum(Dir(fs, dp), r.off / DIRENT)
    ensures DirOk(Dir(fs, dp)) && fs.inodes[dp].kind == T_DIR ==>
              Binding(Dir(fs, dp), Key(name)) == if r.Found? then Some(r.inum) else None
  {
    hide FsOk, FieldName, Content, EntryInum, EntryName, IsEntry;
    DirSized(fs.sb, fs.Abs(), fs.reserved, fs.owner, dp);
    ghost var c := Dir(fs, dp);
    if fs.inodes[dp].kind != T_DIR { return LookupPanic; }
    var off := 0;
    ghost var k := 0;
    while off < fs.inodes[dp].size
      invariant off == DIRENT * k
      invariant fs.Abs() == old(fs.Abs()) && fs.owner == old(fs.owner) && fs.writes == old(fs.writes)
      invariant forall j: nat :: j < k ==> !Names(c, j, Key(name))
    {
      if |c| % DIRENT == 0 { WholeEntry(c, k); }
      var ok, inum, field := ReadEntry(fs, dp, off, k);
      if !ok { return LookupPanic; }
      if inum != 0 {
        var same := SameName(name, field);
        if same {
          assert off % DIRENT == 0 && off / DIRENT == k;
          if DirOk(c) { BindingAt(c, k, Key(name)); }
          return Found(inum, off);
        }
      }
      off := off + DIRENT;
      k := k + 1;
    }
    PastEnd(c, k);
    NoBinding(c, Key(name));
    return Missing;
  }

  lemma PastEnd(c: seq<Byte>, k: nat)
    requires DIRENT * k >= |c|
    ensures forall j: nat :: j >= k ==> !IsEntry(c, j)
  {
  }

  /** No entry of the directory is free. */
  ghost predicate AllUsed(c: seq<Byte>) {
    forall j: nat :: IsEntry(c, j) ==> EntryInum(c, j) != 0
  }

  lemma NoneFree(c: seq<Byte>, off: nat, k: nat)
    requires |c| % DIRENT == 0 && off == DIRENT * k <= |c| && forall j: nat :: j < k ==> IsEntry(c, j) && EntryInum(c, j) != 0
    ensures off < |c| ==> off + DIRENT <= |c|
    ensures off >= |c| ==> off == |c| && AllUsed(c)
  {
  }

  /** dirlink: -1 and no change exactly when the name is there already; otherwise
      one more binding.  A number that is zero in 16 bits binds nothing.  It panics
      only with no entry free, at the largest size or on a full disk. */
  method Dirlink(fs: FS.FileSystem, dp: nat, name: seq<Byte>, inum: nat) returns (r: LinkResult)
    requires FsOk(fs.sb, fs.Abs(), fs.reserved, fs.owner) && dp < fs.sb.ninodes && IsName(name)
    requires fs.inodes[dp].kind == T_DIR && DirOk(Dir(fs, dp))
    modifies fs`blocks, fs`inodes, fs`owner, fs`writes
    ensures r.Exists? <==> old(Binding(Dir(fs, dp), Key(name))).Some?
    ensures r.Exists? ==> fs.Abs() == old(fs.Abs()) && fs.owner == old(fs.owner) && fs.writes == old(fs.writes)
    ensures r.Linked? ==> FsOk(fs.sb, fs.Abs(), fs.reserved, fs.owner) && DirOk(Dir(fs, dp))
    ensures r.Linked? && inum % 0x1_0000 != 0 ==> forall key ::
              Binding(Dir(fs, dp), key) == if key == Key(name) then Some(inum % 0x1_0000) else old(Binding(Dir(fs, dp), key))
    ensures r.Linked? && inum % 0x1_0000 == 0 ==> forall key :: Binding(Dir(fs, dp), key) == old(Binding(Dir(fs, dp), key))
    ensures r.LinkPanic? ==> old(AllUsed(Dir(fs, dp)))
    ensures r.LinkPanic? ==> old(|Dir(fs, dp)|) + DIRENT > MAXFILE * BSIZE || fs.DiskFull(fs.Abs())
  {
    hide FsOk, FieldName, Content, EntryInum, EntryName, Splice, WriteEffect, Names, Padded, Key, WriteiLogs, Recorded, Sectors;
    ghost var c := Dir(fs, dp);
    DirSized(fs.sb, fs.Abs(), fs.reserved, fs.owner, dp);
    var found := Dirlookup(fs, dp, name);
    if found.Found? { return Exists; }
    var off := FindEmpty(fs, dp);
    ghost var k := off / DIRENT;
    assert off == DIRENT * k;
    var low := inum % 0x1_0000;
    var de := EntryBytes(low, Padded(name));
    var w := fs.Writei(dp, de, off);
    if !w.Wrote? {
      NoneFree(c, off, k);
      return LinkPanic;
    }
    DirWritten(fs.sb, old(fs.Abs()), fs.Abs(), dp, off, de);
    if low != 0 { LinkAdds(c, k, low, name); } else { LinkZeroAddsNothing(c, k, Padded(name)); }
    return Linked;
  }

  lemma DirWritten(sb: Super, fs0: Fs, fs: Fs, dp: nat, off: nat, src: seq<Byte>)
    requires WriteEffect(sb, fs0, fs, dp, off, src)
    ensures Shaped(sb, fs0) && Shaped(sb, fs) && fs0.inodes[dp].size <= MAXFILE * BSIZE && fs.inodes[dp].size <= MAXFILE * BSIZE
    ensures off <= fs0.inodes[dp].size && Content(sb, fs, dp) == Splice(Content(sb, fs0, dp), off, src)
  {
  }

  lemma LinkZeroAddsNothing(c: seq<Byte>, k: nat, field: seq<Byte>)
    requires DirOk(c) && DIRENT * k <= |c| && (IsEntry(c, k) ==> EntryInum(c, k) == 0) && |field| == DIRSIZ
    ensures var c' := Splice(c, DIRENT * k, EntryBytes(0, field));
            DirOk(c') && forall key :: Binding(c', key) == Binding(c, key)
  {
    hide Splice, EntryInum, EntryName;
    var c' := Splice(c, DIRENT * k, EntryBytes(0, field));
    forall j: nat, key ensures Names(c', j, key) <==> Names(c, j, key) { EntryWritten(c, k, 0, field, j); }
    assert DirOk(c') by { EntryWritten(c, k, 0, field, k); }
    forall key ensures Binding(c', key) == Binding(c, key) {
      if j: nat :| Names(c, j, key) {
        BindingAt(c', j, key);
        BindingAt(c, j, key);
        EntryWritten(c, k, 0, field, j);
      } else {
        NoBinding(c', key);
      }
    }
  }

  /** The second loop of dirlink: the first unused entry, or the end. */
  method FindEmpty(fs: FS.FileSystem, dp: nat) returns (off: Word)
    requires FsOk(fs.sb, fs.Abs(), fs.reserved, fs.owner) && dp < fs.sb.ninodes
    requires fs.inodes[dp].kind == T_DIR && |Dir(fs, dp)| % DIRENT == 0
    modifies fs`blocks, fs`inodes, fs`owner, fs`writes
    ensures fs.Abs() == old(fs.Abs()) && fs.owner == old(fs.owner) && fs.writes == old(fs.writes)
    ensures off % DIRENT == 0 && off <= |Dir(fs, dp)|
    ensures IsEntry(Dir(fs, dp), off / DIRENT) ==> EntryInum(Dir(fs, dp), off / DIRENT) == 0
    ensures forall j: nat :: j < off / DIRENT ==> IsEntry(Dir(fs, dp), j) && EntryInum(Dir(fs, dp), j) != 0
  {
    hide FsOk, FieldName, Content, EntryInum, EntryName, IsEntry;
    DirSized(fs.sb, fs.Abs(), fs.reserved, fs.owner, dp);
    ghost var c := Dir(fs, dp);
    off := 0;
    ghost var k := 0;
    while off < fs.inodes[dp].size
      invariant off == DIRENT * k && off <= |c|
      invariant fs.Abs() == old(fs.Abs()) && fs.owner == old(fs.owner) && fs.writes == old(fs.writes)
      invariant forall j: nat :: j < k ==> IsEntry(c, j) && EntryInum(c, j) != 0
    {
      WholeEntry(c, k);
      var ok, inum, field := ReadEntry(fs, dp, off, k);
      if inum == 0 { return; }
      off := off + DIRENT;
      k := k + 1;
    }
    PastEnd(c, k);
  }

  lemma WholeEntry(c: seq<Byte>, k: nat)
    requires |c| % DIRENT == 0 && DIRENT * k < |c|
    ensures IsEntry(c, k) && DIRENT * k + DIRENT <= |c|
  {
  }

  /** The part of unlink that removes the entry dirlookup found: zeroes over it. */
  method ClearEntry(fs: FS.FileSystem, dp: nat, name: seq<Byte>, off: Word) returns (ok: bool)
    requires FsOk(fs.sb, fs.Abs(), fs.reserved, fs.owner) && dp < fs.sb.ninodes && IsName(name)
    requires fs.inodes[dp].kind == T_DIR && DirOk(Dir(fs, dp))
    requires off % DIRENT == 0 && Names(Dir(fs, dp), off / DIRENT, Key(name))
    modifies fs`blocks, fs`inodes, fs`owner, fs`writes
    ensures ok && FsOk(fs.sb, fs.Abs(), fs.reserved, fs.owner) && DirOk(Dir(fs, dp))
    ensures forall key :: Binding(Dir(fs, dp), key) == if key == Key(name) then None else old(Binding(Dir(fs, dp), key))
  {
    hide FsOk, FieldName, Content, Splice, WriteEffect, WriteiLogs, Recorded, Sectors;
    ghost var c := Dir(fs, dp);
    DirSized(fs.sb, fs.Abs(), fs.reserved, fs.owner, dp);
    ghost var k := off / DIRENT;
    assert off == DIRENT * k;
    var zero: seq<Byte> := seq(DIRSIZ, i => 0);
    var de := EntryBytes(0, zero);
    var w := fs.Writei(dp, de, off);
    if !w.Wrote? { return false; }  // the panic, which is never reached
    DirWritten(fs.sb, old(fs.Abs()), fs.Abs(), dp, off, de);
    UnlinkRemoves(c, k, Key(name));
    return true;
  }
}
