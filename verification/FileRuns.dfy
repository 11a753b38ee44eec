/**
 Whole runs of kernel/fs.c and filewrite on one volume: whatever the calls, a
 file is the bytes last written to it, no block is ever in two places, and the
 free map marks exactly the blocks that are somewhere.
 */
module FileRuns {
  import opened Common
  import opened BlockBytes
  import opened FileState
  import opened FileSystem

  /** readi, filewrite and itrunc, by inode number. */
  datatype Call =
    | Read(ino: nat, off: nat, n: nat)
    | Write(ino: nat, off: nat, data: seq<Byte>)
    | Truncate(ino: nat)

  // Unfit: no such inode, or an argument that is no unsigned int.
  datatype Reply = Unfit | Bytes(data: seq<Byte>) | Wrote(all: bool, end: nat) | Emptied

  ghost predicate Fits(t: Turn, call: Call) {
    && call.ino in t.inodes && call.ino in t.files
    && match call
       case Read(ino, off, n) => off < UINT && n < UINT
       case Write(ino, off, data) => off < UINT && |data| < UINT
       case Truncate(ino) => true
  }

  // filewrite stops short only on a full disk, past the end of the file, or for a file that would be too long.
  ghost predicate Stopped(l: Superblock, t: Turn, ino: nat, end: nat, rest: nat)
    requires ino in t.files
  {
    Full(l, t.blocks) || end > |t.files[ino]| || end + Min(rest, FILEMAX) > MAXFILE * BSIZE
  }

  /** What a call returns and does to the files, which are just byte sequences. */
  ghost predicate Answers(l: Superblock, t: Turn, call: Call, r: Reply, t': Turn) {
    if !Fits(t, call) then r == Unfit && t' == t
    else
      var s := t.files[call.ino];
      match call
      case Read(ino, off, n) =>
        && t' == t
        && r == Bytes(if off > |s| || off + n >= UINT then [] else s[off..Min(off + n, |s|)])
      case Write(ino, off, data) =>
        && r.Wrote? && off <= r.end <= off + |data| && (r.all <==> r.end == off + |data|)
        && Written(t.files, t'.files, ino, off, data, r.end - off)
        && ino in t'.files && (!r.all ==> Stopped(l, t', ino, r.end, off + |data| - r.end))
      case Truncate(ino) => r == Emptied && t'.files == t.files[ino := []]
  }

  /** One place for every block, and a free map that marks exactly the blocks that have one. */
  ghost predicate Intact(l: Superblock, t: Turn) {
    && (forall i, k: nat, i', k': nat ::
      i in t.inodes && i' in t.inodes && k <= MAXFILE && k' <= MAXFILE && (i, k) != (i', k')
        && AddrOf(t.blocks, t.inodes, i, k) != 0 ==>
        AddrOf(t.blocks, t.inodes, i, k) != AddrOf(t.blocks, t.inodes, i', k'))
    && (forall b: nat :: b < l.size ==>
      (Used(l, t.blocks, b) <==> b < l.datastart || Reachable(t, b)))
  }

  ghost predicate Reachable(t: Turn, b: nat) {
    exists i, k :: i in t.inodes && 0 <= k <= MAXFILE && AddrOf(t.blocks, t.inodes, i, k) == b
  }

  lemma ValidIntact(l: Superblock, t: Turn, owner: Owners)
    requires Sound(l, t.blocks, t.inodes, owner, 0, 0) && Marked(l, t.blocks, owner, 0)
    ensures Intact(l, t)
  {
    hide Sound, Marked, Used, AddrOf;
    forall i, k: nat, i', k': nat |
      i in t.inodes && i' in t.inodes && k <= MAXFILE && k' <= MAXFILE && (i, k) != (i', k')
        && AddrOf(t.blocks, t.inodes, i, k) != 0
      ensures AddrOf(t.blocks, t.inodes, i, k) != AddrOf(t.blocks, t.inodes, i', k')
    {
      NoSharing(l, t.blocks, t.inodes, owner, i, k, i', k');
    }
    forall b: nat | b < l.size ensures Used(l, t.blocks, b) <==> b < l.datastart || Reachable(t, b) {
      MapIsExact(l, t.blocks, t.inodes, owner, b);
    }
  }

  method Do(v: Volume, call: Call) returns (r: Reply)
    requires v.Valid()
    modifies v
    ensures v.Valid() && Answers(v.l, old(v.Now()), call, r, v.Now())
  {
    hide Sound, Marked, Holds, Used, Splice, Full, Course, OneTurn;
    match call {
      case Read(ino, off, n) =>
        if ino !in v.inodes || off >= UINT || n >= UINT { return Unfit; }
        var data := v.Readi(ino, off, n);
        r := Bytes(data);
      case Write(ino, off, data) =>
        if ino !in v.inodes || off >= UINT || |data| >= UINT { return Unfit; }
        var all, end, turns := v.Filewrite(ino, off, data);
        r := Wrote(all, end);
      case Truncate(ino) =>
        if ino !in v.inodes { return Unfit; }
        var freed := v.Itrunc(ino);
        r := Emptied;
    }
  }

  /** Any calls in any order. */
  method Run(v: Volume, script: seq<Call>) returns (replies: seq<Reply>, ghost turns: seq<Turn>)
    requires v.Valid()
    modifies v
    ensures v.Valid() && |replies| == |script| && |turns| == |script| + 1
    ensures turns[0] == old(v.Now()) && turns[|script|] == v.Now()
    ensures forall k :: 0 <= k < |script| ==> Answers(v.l, turns[k], script[k], replies[k], turns[k + 1])
    ensures forall k :: 0 <= k <= |script| ==> Intact(v.l, turns[k])
  {
    hide Sound, Marked, HoldAll, Sized, Answers, Intact;
    replies, turns := [], [v.Now()];
    ValidIntact(v.l, v.Now(), v.owner);
    while |replies| < |script|
      invariant v.Valid() && |replies| <= |script| && |turns| == |replies| + 1
      invariant turns[0] == old(v.Now()) && turns[|replies|] == v.Now()
      invariant forall k :: 0 <= k < |replies| ==> Answers(v.l, turns[k], script[k], replies[k], turns[k + 1])
      invariant forall k :: 0 <= k <= |replies| ==> Intact(v.l, turns[k])
      decreases |script| - |replies|
    {
      var r := Do(v, script[|replies|]);
      ValidIntact(v.l, v.Now(), v.owner);
      replies, turns := replies + [r], turns + [v.Now()];
    }
  }
}
