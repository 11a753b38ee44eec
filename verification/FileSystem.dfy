/**
 Block allocation and file contents of kernel/fs.c, over the blocks as the
 buffer cache shows them: balloc, bfree, bmap, itrunc, readi and writei.
 */
module FileSystem {
  import opened Common
  import opened BlockBytes
  import opened FileState
  import CrashRecovery

  // bfree's panic
  datatype Freed = Freed | FreeingFreeBlock

  function Min(a: nat, b: nat): nat {
    if a < b then a else b
  }

  lemma MapBitOf(l: Superblock, blocks: Blocks, b: nat, bi: nat)
    requires b % BPB == 0 && bi < BPB && b / BPB + l.bmapstart in blocks
    ensures (b + bi) / BPB == b / BPB && (b + bi) % BPB == bi
    ensures Used(l, blocks, b + bi) == Has(blocks[b / BPB + l.bmapstart][bi / 8], bi % 8)
  {
    assert (b + bi) / BPB == b / BPB;
  }

  class Volume {
    const l: Superblock
    var blocks: Blocks
    var inodes: Inodes
    ghost var owner: Owners
    ghost var files: Files          // what each file holds
    ghost var logged: set<nat>      // blocks given to log_write in this transaction

    // Inside an operation block `spare` may be marked but not yet in a slot.
    ghost predicate Loose(spare: nat)
      reads this
    {
      Sound(l, blocks, inodes, owner, 0, 0) && Marked(l, blocks, owner, spare) && HoldAll(blocks, inodes, files)
    }

    ghost predicate Valid()
      reads this
    {
      Loose(0) && Sized(inodes, files)
    }

    /** A mounted volume, from an image in which every block has one place. */
    constructor (l: Superblock, blocks: Blocks, inodes: Inodes, ghost owner: Owners, ghost files: Files)
      requires Sound(l, blocks, inodes, owner, 0, 0) && Marked(l, blocks, owner, 0)
      requires HoldAll(blocks, inodes, files) && Sized(inodes, files)
      ensures Valid() && this.l == l && this.blocks == blocks && this.inodes == inodes && this.files == files
    {
      this.l, this.blocks, this.inodes := l, blocks, inodes;
      this.owner, this.files, this.logged := owner, files, {};
    }

    /** bread, change, log_write, brelse of a block that is in no slot. */
    method Put(w: nat, blk: RawBlock)
      requires Sound(l, blocks, inodes, owner, 0, 0) && HoldAll(blocks, inodes, files) && 0 < w && w !in owner
      modifies this`blocks, this`logged
      ensures blocks == old(blocks)[w := blk] && logged == old(logged) + {w}
      ensures Sound(l, blocks, inodes, owner, 0, 0) && HoldAll(blocks, inodes, files)
      ensures forall i, k :: AddrOf(blocks, inodes, i, k) == old(AddrOf(blocks, inodes, i, k))
    {
      hide Sound, Marked, HoldAll, AddrOf, Used;
      WriteElsewhere(l, blocks, inodes, owner, 0, 0, w, blk);
      FilesElsewhere(l, blocks, inodes, owner, 0, 0, files, w, blk);
      blocks := blocks[w := blk];
      logged := logged + {w};
    }

    /** balloc's find: mark block b in the map and zero it. */
    method Mark(b: nat)
      requires Loose(0) && b < l.size && !Used(l, blocks, b)
      modifies this`blocks, this`logged
      ensures Loose(b) && logged == old(logged) + {b / BPB + l.bmapstart, b}
      ensures l.datastart <= b && b !in owner
      ensures b / BPB + l.bmapstart in old(blocks)
      ensures blocks == old(blocks)[b / BPB + l.bmapstart := SetBit(old(blocks)[b / BPB + l.bmapstart],
        b % BPB)][b := ZERO]
      ensures forall i, k :: AddrOf(blocks, inodes, i, k) == old(AddrOf(blocks, inodes, i, k))
    {
      hide Marked, HoldAll, AddrOf, Used, SetBit, Claimed, Grounded;
      var w := b / BPB + l.bmapstart;
      MapBlock(l, blocks, inodes, b);
      MarkOne(l, blocks, owner, b);
      OwnersInRange(l, blocks, inodes, owner);
      Put(w, SetBit(blocks[w], b % BPB));
      MarkedFrame(l, blocks, owner, b, b, ZERO);
      Put(b, ZERO);
    }

    /** balloc: the lowest free block, now marked and zeroed; 0 when every block is in use. */
    method Balloc() returns (r: nat)
      requires Loose(0)
      modifies this`blocks, this`logged
      ensures Loose(r)
      ensures r == 0 ==> blocks == old(blocks) && logged == old(logged) && forall b: nat :: b < l.size ==>
        old(Used(l, blocks, b))
      ensures r != 0 ==>
        l.datastart <= r < l.size && r !in owner && !old(Used(l, blocks, r)) && r in blocks && blocks[r] == ZERO
      ensures r != 0 ==> forall b: nat :: b < r ==> old(Used(l, blocks, b))
      ensures r != 0 ==> logged == old(logged) + {r / BPB + l.bmapstart, r}
      ensures forall b :: b in old(blocks) && b !in owner && b >= l.datastart && b != r ==>
        b in blocks && blocks[b] == old(blocks)[b]
      ensures forall b :: b in owner ==> b in old(blocks) && b in blocks && blocks[b] == old(blocks)[b]
      ensures Covers(old(blocks), blocks, logged)
      ensures forall i, k :: AddrOf(blocks, inodes, i, k) == old(AddrOf(blocks, inodes, i, k))
    {
      hide Marked, HoldAll, AddrOf, Used, SetBit, Claimed, Grounded, Has;
      OwnersInRange(l, blocks, inodes, owner);
      var b := 0;
      while b < l.size
        invariant Loose(0) && blocks == old(blocks) && logged == old(logged) && b % BPB == 0
        invariant forall c: nat :: c < b && c < l.size ==> Used(l, blocks, c)
      {
        MapBlock(l, blocks, inodes, b);
        var bp := blocks[b / BPB + l.bmapstart];
        var bi := 0;
        while bi < BPB && b + bi < l.size
          invariant Loose(0) && blocks == old(blocks) && logged == old(logged) && bi <= BPB
          invariant forall c: nat :: c < b + bi && c < l.size ==> Used(l, blocks, c)
        {
          MapBitOf(l, blocks, b, bi);
          if !Has(bp[bi / 8], bi % 8) {
            r := b + bi;
            MapBlock(l, blocks, inodes, r);
            Mark(r);
            return;
          }
          bi := bi + 1;
        }
        b := b + BPB;
      }
      return 0;
    }

    /** bfree of block a, which is no longer in a slot; ino and done say how far itrunc has come. */
    method Bfree(a: nat, ghost ino: nat, ghost done: nat) returns (r: Freed)
      requires Sound(l, blocks, inodes, owner, ino, done) && Marked(l, blocks, owner, 0)
        && HoldAll(blocks, inodes, files)
      requires ino in inodes && done <= MAXFILE && AddrOf(blocks, inodes, ino, done) == a != 0 && files[ino] == []
      modifies this`blocks, this`owner, this`logged
      ensures r == Freed
      ensures a in old(owner) && owner == old(owner) - {a}
      ensures Sound(l, blocks, inodes, owner, ino, done + 1) && Marked(l, blocks, owner, 0)
        && HoldAll(blocks, inodes, files)
      ensures forall i, k :: AddrOf(blocks, inodes, i, k) == old(AddrOf(blocks, inodes, i, k))
      ensures forall b :: b in old(blocks) && b >= l.datastart ==> b in blocks && blocks[b] == old(blocks)[b]
    {
      hide HoldAll, AddrOf, SetBit, ClearBit, Claimed, Grounded, Has;
      FreedSlot(l, blocks, inodes, owner, ino, done);
      var w, bi := a / BPB + l.bmapstart, a % BPB;
      MapBlock(l, blocks, inodes, a);
      var bp := blocks[w];
      if !Has(bp[bi / 8], bi % 8) {
        return FreeingFreeBlock;
      }
      UnmarkOne(l, blocks, owner, a);
      MetaOwnsNothing(l, blocks, inodes, owner, ino, done, w);
      WriteElsewhere(l, blocks, inodes, owner, ino, done, w, ClearBit(bp, bi));
      FilesElsewhere(l, blocks, inodes, owner, ino, done, files, w, ClearBit(bp, bi));
      blocks := blocks[w := ClearBit(bp, bi)];
      logged := logged + {w};
      FreedSlot(l, blocks, inodes, owner, ino, done);
      owner := owner - {a};
      return Freed;
    }

    /** A new block for addrs[idx], which holds 0: a direct block, or the indirect block itself. */
    method FillAddr(ino: nat, idx: nat) returns (a: nat)
      requires Loose(0) && ino in inodes && idx <= NDIRECT && inodes[ino].addrs[idx] == 0
      modifies this`blocks, this`inodes, this`owner, this`logged
      ensures Loose(0) && SameSizes(old(inodes), inodes)
      ensures a == 0 ==> blocks == old(blocks) && inodes == old(inodes) && forall b: nat :: b < l.size ==>
        Used(l, blocks, b)
      ensures a != 0 ==> a in blocks && blocks[a] == ZERO
      ensures a != 0 ==> inodes == old(inodes)[ino := old(inodes)[ino].(addrs := old(inodes)[ino].addrs[idx := a])]
      ensures a != 0 ==> SlotSet(old(blocks), old(inodes), blocks, inodes, SlotOf(ino, idx), a)
      ensures logged <= old(logged) + MapBlocks(l) + NonZero(a)
      ensures Covers(old(blocks), blocks, logged)
      ensures Charged(l, old(blocks), old(logged), logged, a)
    {
      hide Marked, HoldAll, AddrOf, Claimed, Grounded, Used;
      a := Balloc();
      if a == 0 {
        return;
      }
      ghost var s := SlotOf(ino, idx);
      var inodes' := inodes[ino := inodes[ino].(addrs := inodes[ino].addrs[idx := a])];
      SetAddr(blocks, inodes, ino, idx, a);
      SlotWasEmpty(blocks, inodes, ino, idx);
      Adopt(l, blocks, inodes, blocks, inodes', owner, s, a);
      AdoptMarked(l, blocks, owner, s, a);
      AdoptFiles(l, blocks, inodes, blocks, inodes', owner, s, a, files);
      inodes := inodes';
      owner := owner[a := s];
    }

    /** A new block for an entry of the indirect block. */
    method FillEntry(ino: nat, bn: nat) returns (a: nat)
      requires Loose(0) && ino in inodes && NDIRECT <= bn < MAXFILE
      requires inodes[ino].addrs[NDIRECT] != 0 && AddrOf(blocks, inodes, ino, bn) == 0
      modifies this`blocks, this`owner, this`logged
      ensures Loose(0)
      ensures a == 0 ==> blocks == old(blocks) && forall b: nat :: b < l.size ==> Used(l, blocks, b)
      ensures a != 0 ==>
        a in blocks && blocks[a] == ZERO && SlotSet(old(blocks), inodes, blocks, inodes, Slot(ino, bn), a)
      ensures Covers(old(blocks), blocks, logged)
      ensures Charged(l, old(blocks), old(logged), logged, a)
      ensures logged <= old(logged) + MapBlocks(l) + NonZero(a) + NonZero(inodes[ino].addrs[NDIRECT])
    {
      hide Marked, HoldAll, AddrOf, Claimed, Grounded, Used, U32At, PutU32;
      a := Balloc();
      if a == 0 {
        return;
      }
      ghost var s := Slot(ino, bn);
      var ind := inodes[ino].addrs[NDIRECT];
      IndirectOwned(l, blocks, inodes, owner, ino);
      SetEntry(l, blocks, inodes, owner, ino, bn, a);
      var blocks' := blocks[ind := PutU32(blocks[ind], bn - NDIRECT, a)];
      Adopt(l, blocks, inodes, blocks', inodes, owner, s, a);
      MarkedFrame(l, blocks, owner, a, ind, PutU32(blocks[ind], bn - NDIRECT, a));
      AdoptMarked(l, blocks', owner, s, a);
      AdoptFiles(l, blocks, inodes, blocks', inodes, owner, s, a, files);
      blocks := blocks';
      logged := logged + {ind};
      owner := owner[a := s];
    }

    /**
     bmap: the block of the file's block bn, allocated when there was none; 0
     only when the disk is full.  No other slot and no file byte changes, and
     nothing at all when the block was there.
     */
    method Bmap(ino: nat, bn: nat) returns (a: nat)
      requires Loose(0) && ino in inodes && bn < MAXFILE
      modifies this`blocks, this`inodes, this`owner, this`logged
      ensures Loose(0) && SameSizes(old(inodes), inodes)
      ensures a == AddrOf(blocks, inodes, ino, bn)
      ensures old(AddrOf(blocks, inodes, ino, bn)) != 0 ==>
        a == old(AddrOf(blocks, inodes, ino, bn)) && blocks == old(blocks) && inodes == old(inodes)
          && owner == old(owner) && logged == old(logged)
      ensures forall i: nat, k: nat :: k < MAXFILE && (i != ino || k != bn) ==>
        AddrOf(blocks, inodes, i, k) == old(AddrOf(blocks, inodes, i, k))
      ensures a == 0 ==> forall b: nat :: b < l.size ==> Used(l, blocks, b)
      ensures a != 0 && old(AddrOf(blocks, inodes, ino, bn)) == 0 ==> a in blocks && blocks[a] == ZERO
      ensures old(AddrOf(blocks, inodes, ino, bn)) == 0 ==>
        if old(Full(l, blocks)) then a == 0 && blocks == old(blocks) && inodes == old(inodes) && logged == old(logged)
          else MapLogged(l, logged)
      ensures old(logged) <= logged && Covers(old(blocks), blocks, logged) && OthersSame(old(inodes), inodes, ino)
      ensures logged <= old(logged) + MapBlocks(l) + NonZero(a) + NonZero(inodes[ino].addrs[NDIRECT])
      ensures old(inodes)[ino].addrs[NDIRECT] != 0 ==> inodes[ino].addrs[NDIRECT] == old(inodes)[ino].addrs[NDIRECT]
    {
      hide Marked, HoldAll, Claimed, Grounded, Used, U32At, Full, MapLogged, Covers;
      NothingChanged(blocks, logged);
      if bn < NDIRECT {
        a := inodes[ino].addrs[bn];
        if a == 0 {
          a := FillAddr(ino, bn);
        }
        return;
      }
      var ind := inodes[ino].addrs[NDIRECT];
      if ind == 0 {
        ind := FillAddr(ino, NDIRECT);
        if ind == 0 {
          return 0;
        }
      }
      var bp := blocks[ind];
      a := U32At(bp, bn - NDIRECT);
      if a == 0 {
        ghost var b1, l1 := blocks, logged;
        a := FillEntry(ino, bn);
        CoversMore(old(blocks), b1, l1, blocks, logged);
      }
    }

    /**
     itrunc: frees every block of the inode, none of them twice, so that bfree's
     panic is out of reach; afterwards the file is empty and the other files are
     as they were.
     */
    method Itrunc(ino: nat) returns (r: Freed)
      requires Valid() && ino in inodes
      modifies this
      ensures r == Freed && Valid() && files == old(files)[ino := []]
      ensures inodes == old(inodes)[ino := RawInode(seq(NDIRECT + 1, _ => 0), 0)]
      ensures forall a :: a in owner <==> a in old(owner) && old(owner)[a].ino != ino
      ensures forall a :: a in owner ==>
        owner[a] == old(owner)[a] && a in old(blocks) && a in blocks && blocks[a] == old(blocks)[a]
    {
      hide Marked, HoldAll, Sound, Used, AddrOf;
      OwnersInRange(l, blocks, inodes, owner);
      r := FreeAll(ino);
      TruncDone(l, old(blocks), old(inodes), old(owner), blocks, inodes, owner, files, ino);
      inodes := inodes[ino := RawInode(seq(NDIRECT + 1, _ => 0), 0)];
      assert inodes == old(inodes)[ino := RawInode(seq(NDIRECT + 1, _ => 0), 0)];
    }

    method FreeAll(ino: nat) returns (r: Freed)
      requires Loose(0) && ino in inodes
      modifies this
      ensures r == Freed && files == old(files)[ino := []] && Truncating(old(blocks), old(inodes), ino, MAXFILE + 1)
    {
      hide Marked, HoldAll, Sound, Used, AddrOf;
      NoneDead(l, blocks, inodes, owner, 0, ino);
      Forget(blocks, inodes, files, ino);
      files := files[ino := []];
      r := FreeDirect(ino, blocks, inodes);
      if inodes[ino].addrs[NDIRECT] != 0 {
        r := FreeIndirect(ino, old(blocks), old(inodes));
      } else {
        NoIndirect(l, blocks, inodes, owner, ino);
      }
    }

    /** itrunc's first loop. */
    method FreeDirect(ino: nat, ghost blocks0: Blocks, ghost inodes0: Inodes) returns (r: Freed)
      requires Truncating(blocks0, inodes0, ino, 0)
      modifies this`blocks, this`inodes, this`owner, this`logged
      ensures r == Freed && Truncating(blocks0, inodes0, ino, NDIRECT)
      ensures inodes[ino].addrs[NDIRECT] == old(inodes)[ino].addrs[NDIRECT]
      ensures forall k :: 0 <= k < NDIRECT ==> inodes[ino].addrs[k] == 0
    {
      hide Marked, HoldAll, Sound, Used, AddrOf;
      r := Freed;
      for i := 0 to NDIRECT
        invariant r == Freed && Truncating(blocks0, inodes0, ino, i)
        invariant forall k :: 0 <= k < i ==> inodes[ino].addrs[k] == 0
        invariant inodes[ino].addrs[NDIRECT] == old(inodes)[ino].addrs[NDIRECT]
      {
        FreedSlot(l, blocks, inodes, owner, ino, i);
        DirectAddr(blocks, inodes, ino, i);
        if inodes[ino].addrs[i] != 0 {
          r := Bfree(inodes[ino].addrs[i], ino, i);
          ZeroDead(l, blocks, inodes, owner, files, ino, i);
          inodes := inodes[ino := inodes[ino].(addrs := inodes[ino].addrs[i := 0])];
        }
      }
    }

    /** itrunc's second loop, and the indirect block after it. */
    method FreeIndirect(ino: nat, ghost blocks0: Blocks, ghost inodes0: Inodes) returns (r: Freed)
      requires Truncating(blocks0, inodes0, ino, NDIRECT) && inodes[ino].addrs[NDIRECT] != 0
      modifies this`blocks, this`owner, this`logged
      ensures r == Freed && Truncating(blocks0, inodes0, ino, MAXFILE + 1)
    {
      hide Marked, HoldAll, Sound, Used, AddrOf, U32At;
      r := Freed;
      var ind := inodes[ino].addrs[NDIRECT];
      IndirectThere(l, blocks, inodes, owner, ino, NDIRECT);
      var bp := blocks[ind];
      for j := 0 to NINDIRECT
        invariant r == Freed && Truncating(blocks0, inodes0, ino, NDIRECT + j)
        invariant ind in blocks && blocks[ind] == bp
      {
        FreedSlot(l, blocks, inodes, owner, ino, NDIRECT + j);
        EntryAddr(blocks, inodes, ino, j);
        if U32At(bp, j) != 0 {
          r := Bfree(U32At(bp, j), ino, NDIRECT + j);
        }
      }
      DirectAddr(blocks, inodes, ino, MAXFILE);
      r := Bfree(ind, ino, MAXFILE);
    }

    /**
     readi.  On a volume where every byte of a file has its block it gives the
     file's bytes and changes nothing.  In general it allocates, and so logs,
     exactly when it meets a byte without a block on a disk that is not full;
     `logged == {}` is how a read outside a transaction starts.
     */
    method Readi(ino: nat, off: nat, n: nat) returns (data: seq<Byte>)
      requires Loose(0) && ino in inodes && off < UINT && n < UINT
      requires Sized(inodes, files) || inodes[ino].size <= MAXFILE * BSIZE
      modifies this`blocks, this`inodes, this`owner, this`logged
      ensures Loose(0)
      ensures old(Valid()) ==>
        blocks == old(blocks) && inodes == old(inodes) && owner == old(owner) && logged == old(logged)
      ensures old(Valid()) ==>
        data == if off > |files[ino]| || off + n >= UINT then [] else files[ino][off..Min(off + n, |files[ino]|)]
      ensures old(logged) == {} ==>
        (logged == {} <==>
          Full(l, old(blocks)) || !HasHole(old(blocks), old(inodes), ino, off, ReadEnd(old(inodes)[ino].size, off, n)))
    {
      hide Marked, Claimed, Grounded, Used, AddrOf, Holds, HasHole, Full, Probed, Mapped, Sound;
      data := [];
      ghost var s := files[ino];
      NoHoleYet(l, blocks, inodes, ino, off, ReadEnd(inodes[ino].size, off, n));
      if off > inodes[ino].size || (off + n) % UINT < off {
        return;
      }
      SizeFits(blocks, inodes, files, ino);
      var left := if off + n > inodes[ino].size then inodes[ino].size - off else n;
      var tot := 0;
      while tot < left
        invariant tot <= left && off + left <= MAXFILE * BSIZE && Loose(0) && ino in inodes
        invariant old(Valid()) ==> off + left <= |s| && data == s[off..off + tot]
        invariant old(Valid()) ==>
          blocks == old(blocks) && inodes == old(inodes) && owner == old(owner) && logged == old(logged)
        invariant old(logged) == {} ==>
          Probed(l, old(blocks), old(inodes), blocks, inodes, logged, ino, off, off + tot, off + left)
      {
        var at := off + tot;
        var m := Min(left - tot, BSIZE - at % BSIZE);
        ghost var b0, i0, l0 := blocks, inodes, logged;
        var addr, piece := ReadPiece(ino, at, m, s);
        if old(logged) == {} {
          ProbedMore(l, old(blocks), old(inodes), b0, i0, l0, blocks, inodes, logged, ino, off, at, m, off + left,
            addr);
        }
        if addr == 0 {
          break;
        }
        data := data + piece;
        assert old(Valid()) ==> s[off..at + m] == s[off..at] + s[at..at + m];
        tot := tot + m;
      }
      if tot == left && old(logged) == {} {
        ProbedDone(l, old(blocks), old(inodes), blocks, inodes, logged, ino, off, off + left);
      }
    }

    // One turn of readi's loop: the bytes at..at + m of one block, which are those of a file s that lies there.
    method ReadPiece(ino: nat, at: nat, m: nat, ghost s: seq<Byte>) returns (addr: nat, piece: seq<Byte>)
      requires Loose(0) && ino in inodes && at / BSIZE < MAXFILE && 0 < m && at % BSIZE + m <= BSIZE
      modifies this`blocks, this`inodes, this`owner, this`logged
      ensures Loose(0) && ino in inodes
        && Mapped(l, old(blocks), old(inodes), old(logged), blocks, inodes, logged, ino, at / BSIZE, addr)
      ensures old(Holds(blocks, inodes, ino, s)) && at + m <= |s| ==>
        && addr != 0 && piece == s[at..at + m]
        && blocks == old(blocks) && inodes == old(inodes) && owner == old(owner) && logged == old(logged)
    {
      hide Marked, Used, AddrOf, Holds, Full, MapLogged, MapBlocks, NonZero, Sound;
      if Holds(blocks, inodes, ino, s) && at + m <= |s| {
        ChunkIs(blocks, inodes, ino, s, at, m);
      }
      piece := [];
      addr := Bmap(ino, at / BSIZE);
      if addr != 0 {
        AddrInRange(l, blocks, inodes, owner, ino, at / BSIZE);
        piece := blocks[addr][at % BSIZE..at % BSIZE + m];
      }
    }

    /** One turn of writei's loop: bytes of one block, with the block found or allocated first. */
    method WriteChunk(ino: nat, off: nat, data: seq<Byte>) returns (ok: bool)
      requires Loose(0) && ino in inodes && off <= |files[ino]| && off / BSIZE < MAXFILE
        && off % BSIZE + |data| <= BSIZE
      modifies this
      ensures Loose(0) && SameSizes(old(inodes), inodes) && ino in files
      ensures ok ==> files == old(files)[ino := Splice(old(files)[ino], off, data)]
      ensures !ok ==> files == old(files) && forall b: nat :: b < l.size ==> Used(l, blocks, b)
      ensures old(logged) <= logged && Covers(old(blocks), blocks, logged) && OthersSame(old(inodes), inodes, ino)
      ensures Touched(l, old(blocks), old(inodes), old(logged), blocks, inodes, logged, ino, off / BSIZE,
        off / BSIZE + 1)
    {
      hide Marked, Sound, Used, AddrOf, Holds, Splice, Patch, Touched, MapBlocks, Covers;
      var bn, o := off / BSIZE, off % BSIZE;
      var addr := Bmap(ino, bn);
      TouchedOne(l, old(blocks), old(inodes), old(logged), blocks, inodes, logged, ino, bn);
      if addr == 0 {
        return false;
      }
      AddrInRange(l, blocks, inodes, owner, ino, bn);
      var blk := Patch(blocks[addr], o, data);
      PatchKeepsSound(l, blocks, inodes, owner, ino, bn, blk);
      TouchedPatch(l, old(blocks), old(inodes), old(logged), blocks, inodes, logged, ino, bn, blk);
      MarkedFrame(l, blocks, owner, 0, addr, blk);
      PatchAll(l, blocks, inodes, owner, files, ino, bn, o, data);
      CoversOne(old(blocks), blocks, logged, addr, blk);
      blocks := blocks[addr := blk];
      files := files[ino := Splice(files[ino], off, data)];
      logged := logged + {addr};
      return true;
    }

    /** writei's loop. */
    method WriteAll(ino: nat, off: nat, src: seq<Byte>) returns (tot: nat)
      requires Loose(0) && ino in inodes && off <= |files[ino]| && off + |src| <= MAXFILE * BSIZE
      modifies this
      ensures Loose(0) && SameSizes(old(inodes), inodes) && tot <= |src|
      ensures files == old(files)[ino := Splice(old(files)[ino], off, src[..tot])]
      ensures tot < |src| ==> forall b: nat :: b < l.size ==> Used(l, blocks, b)
      ensures old(logged) <= logged && Covers(old(blocks), blocks, logged) && OthersSame(old(inodes), inodes, ino)
      ensures Touched(l, old(blocks), old(inodes), old(logged), blocks, inodes, logged, ino, off / BSIZE,
        Ceil(off + |src|))
    {
      hide Marked, Sound, Holds, Used, AddrOf, Splice, Touched, Covers;
      var n := |src|;
      SpliceNothing(files[ino], off);
      TouchedNothing(l, blocks, inodes, logged, ino, off / BSIZE, Ceil(off + n));
      NothingChanged(blocks, logged);
      tot := 0;
      while tot < n
        invariant tot <= n
        invariant Loose(0) && SameSizes(old(inodes), inodes)
        invariant files == old(files)[ino := Splice(old(files)[ino], off, src[..tot])]
        invariant old(logged) <= logged && Covers(old(blocks), blocks, logged) && OthersSame(old(inodes), inodes, ino)
        invariant Touched(l, old(blocks), old(inodes), old(logged), blocks, inodes, logged, ino, off / BSIZE,
          Ceil(off + n))
      {
        SpliceLength(old(files)[ino], off, src[..tot]);
        var m := Min(n - tot, BSIZE - (off + tot) % BSIZE);
        ghost var b1, i1, l1 := blocks, inodes, logged;
        var ok := WriteChunk(ino, off + tot, src[tot..tot + m]);
        TouchedMore(l, old(blocks), old(inodes), old(logged), b1, i1, l1, blocks, inodes, logged, ino, off / BSIZE,
                    Ceil(off + n), (off + tot) / BSIZE);
        CoversMore(old(blocks), b1, l1, blocks, logged);
        if !ok {
          return;
        }
        SpliceTwice(old(files)[ino], off, src[..tot], src[tot..tot + m]);
        assert src[..tot] + src[tot..tot + m] == src[..tot + m];
        tot := tot + m;
      }
    }

    /**
     writei: the file becomes the old one with the written bytes in place, as
     far as the disk has room; None when off lies past the end or the bytes
     would not fit a file.
     */
    method Writei(ino: nat, off: nat, src: seq<Byte>) returns (r: Option<nat>)
      requires Valid() && ino in inodes && off < UINT && |src| < UINT
      modifies this
      ensures Valid() && inodes.Keys == old(inodes.Keys)
      ensures r.None? <==> off > |old(files)[ino]| || off + |src| > MAXFILE * BSIZE
      ensures r.None? ==> files == old(files) && blocks == old(blocks) && inodes == old(inodes) && logged == old(logged)
      ensures r.Some? ==> r.value <= |src| && files == old(files)[ino := Splice(old(files)[ino], off, src[..r.value])]
      ensures r.Some? && r.value < |src| ==> forall b: nat :: b < l.size ==> Used(l, blocks, b)
      ensures r.Some? ==> Covers(old(blocks), blocks, logged) && OthersSame(old(inodes), inodes, ino)
      ensures r.Some? ==> ino / IPB + l.inodestart in logged
      ensures r.Some? ==> |logged - old(logged)| <= LogNeed(l, off, |src|)
    {
      hide Marked, Sound, Used, AddrOf, Holds, Splice, Touched, MapBlocks, Covers;
      var n := |src|;
      FitsFile(blocks, inodes, ino, files[ino]);
      if off > inodes[ino].size || (off + n) % UINT < off {
        return None;
      }
      if (off + n) % UINT > MAXFILE * BSIZE {
        return None;
      }
      var tot := WriteAll(ino, off, src);
      TouchedCount(l, old(blocks), old(inodes), old(logged), blocks, inodes, logged, ino, off / BSIZE, Ceil(off + n),
        ino / IPB + l.inodestart);
      SpliceLength(old(files)[ino], off, src[..tot]);
      CoversWider(old(blocks), blocks, logged, ino / IPB + l.inodestart);
      Resize(ino, off + tot);
      return Some(tot);
    }

    // The end of writei: a size that reaches `end`, and iupdate.
    method Resize(ino: nat, end: nat)
      requires Loose(0) && ino in inodes && |files[ino]| == if end > inodes[ino].size then end else inodes[ino].size
      requires forall i :: i in inodes && i != ino ==> i in files && inodes[i].size == |files[i]|
      modifies this`inodes, this`logged
      ensures Valid() && OthersSame(old(inodes), inodes, ino) && logged == old(logged) + {ino / IPB + l.inodestart}
    {
      hide Marked, Sound, Used, AddrOf, Holds;
      if end > inodes[ino].size {
        Resized(l, blocks, inodes, owner, files, ino, end);
        inodes := inodes[ino := inodes[ino].(size := end)];
      }
      logged := logged + {ino / IPB + l.inodestart};
    }

    /**
     filewrite on a file: a run of transactions, `turns` the volume before and
     after each of them.  Every one of FILEMAX bytes but the last, each has
     logged all it changed, and is small enough for the log on a volume with
     one block of free map.  The file has the first part of the data spliced
     in, all of it exactly when the result is true; it stops short only on a
     full disk, past the end of the file, or where a chunk does not fit a file.
     */
    method Filewrite(ino: nat, off: nat, data: seq<Byte>) returns (ok: bool, off': nat, ghost turns: seq<Turn>)
      requires Valid() && ino in inodes && off < UINT && |data| < UINT
      modifies this
      ensures Valid() && off <= off' <= off + |data| && (ok <==> off' == off + |data|)
      ensures Written(old(files), files, ino, off, data, off' - off)
      ensures !ok ==>
        Full(l, blocks) || off' > |files[ino]| || off' + Min(off + |data| - off', FILEMAX) > MAXFILE * BSIZE
      ensures |turns| == 1 + if ok then (|data| + FILEMAX - 1) / FILEMAX else (off' - off) / FILEMAX + 1
      ensures turns[0] == old(Now()) && turns[|turns| - 1] == Now() && Course(l, ino, off, data, turns, off' - off)
    {
      hide Sound, Marked, Holds, Splice, Used, Written, Sized, Full, OneTurn, Course;
      var n, i := |data|, 0;
      turns := [Now()];
      WrittenNothing(files, ino, off, data);
      CourseStarts(l, ino, off, data, Now());
      while i < n
        invariant i <= n && Valid() && ino in inodes && inodes.Keys == old(inodes.Keys) && off + i < UINT
        invariant Written(old(files), files, ino, off, data, i)
        invariant |turns| > 0 && turns[0] == old(Now()) && turns[|turns| - 1] == Now()
        invariant if i < n then i == (|turns| - 1) * FILEMAX else |turns| - 1 == (n + FILEMAX - 1) / FILEMAX
        invariant Course(l, ino, off, data, turns, i)
      {
        var n1 := Min(n - i, FILEMAX);
        ghost var before := files;
        var r := Transaction(ino, off + i, data[i..i + n1]);
        if r.Some? {
          WrittenMore(old(files), before, files, ino, off, data, i, n1, r.value);
        }
        TurnCount(n, |turns| - 1, i, n1, if r.None? then 0 else r.value);
        CourseMore(l, ino, off, data, turns, i, if r.None? then i else i + r.value, Now());
        turns := turns + [Now()];
        if r.None? {
          return false, off + i, turns;
        }
        i := i + r.value;
        if r.value != n1 {
          return false, off + i, turns;
        }
      }
      return true, off + n, turns;
    }

    ghost function Now(): Turn
      reads this
    {
      Turn(files, blocks, inodes, logged)
    }

    /** One turn of filewrite's loop, begin_op to end_op. */
    method Transaction(ino: nat, off: nat, src: seq<Byte>) returns (r: Option<nat>)
      requires Valid() && ino in inodes && off < UINT && 0 < |src| <= FILEMAX
      modifies this
      ensures Valid() && inodes.Keys == old(inodes.Keys)
      ensures r.None? <==> off > |old(files)[ino]| || off + |src| > MAXFILE * BSIZE
      ensures r.None? ==> files == old(files)
      ensures r.Some? ==> r.value <= |src| && off <= |old(files)[ino]| && off + |src| <= MAXFILE * BSIZE
      ensures r.Some? ==> files == old(files)[ino := Splice(old(files)[ino], off, src[..r.value])]
      ensures r.Some? && r.value < |src| ==> Full(l, blocks)
      ensures OneTurn(l, ino, old(Now()), Now())
    {
      hide Sound, Marked, HoldAll, Splice, Used, Covers;
      NothingChanged(blocks, {});
      logged := {};
      r := Writei(ino, off, src);
      assert logged - {} == logged;
      ChunkFits(l, off, |src|);
    }

    // Slots below `done` of inode ino are freed; nothing of the others has changed.
    ghost predicate Truncating(blocks0: Blocks, inodes0: Inodes, ino: nat, done: nat)
      reads this
    {
      && Sound(l, blocks, inodes, owner, ino, done) && Marked(l, blocks, owner, 0) && HoldAll(blocks, inodes, files)
      && ino in files && ino in inodes && files[ino] == [] && inodes.Keys == inodes0.Keys
         && (forall i :: i in inodes && i != ino ==> inodes[i] == inodes0[i])
      && (forall i, k :: i != ino ==> AddrOf(blocks, inodes, i, k) == AddrOf(blocks0, inodes0, i, k))
      && (forall b :: b in blocks0 && b >= l.datastart ==> b in blocks && blocks[b] == blocks0[b])
    }
  }

  lemma ChunkIs(blocks: Blocks, inodes: Inodes, ino: nat, s: seq<Byte>, off: nat, m: nat)
    requires Holds(blocks, inodes, ino, s) && 0 < m && off + m <= |s| && off % BSIZE + m <= BSIZE
    ensures off / BSIZE < MAXFILE
    ensures var a := AddrOf(blocks, inodes, ino, off / BSIZE);
      a != 0 && a in blocks && blocks[a][off % BSIZE..off % BSIZE + m] == s[off..off + m]
  {
    hide AddrOf;
    var a := AddrOf(blocks, inodes, ino, off / BSIZE);
    assert ByteIs(blocks, a, off % BSIZE, s[off]);
    var u, v := blocks[a][off % BSIZE..off % BSIZE + m], s[off..off + m];
    forall j | 0 <= j < m ensures u[j] == v[j] {
      assert (off + j) / BSIZE == off / BSIZE && (off + j) % BSIZE == off % BSIZE + j;
      assert ByteIs(blocks, AddrOf(blocks, inodes, ino, (off + j) / BSIZE), (off + j) % BSIZE, s[off + j]);
    }
  }

  lemma AddrInRange(l: Superblock, blocks: Blocks, inodes: Inodes, owner: Owners, ino: nat, bn: nat)
    requires Sound(l, blocks, inodes, owner, 0, 0) && ino in inodes && bn < MAXFILE
      && AddrOf(blocks, inodes, ino, bn) != 0
    ensures AddrOf(blocks, inodes, ino, bn) in blocks
  {
    assert !Dead(0, 0, ino, bn);
  }

  lemma FitsFile(blocks: Blocks, inodes: Inodes, ino: nat, s: seq<Byte>)
    requires Holds(blocks, inodes, ino, s)
    ensures |s| <= MAXFILE * BSIZE
  {
  }

  lemma SpliceNothing(s: seq<Byte>, off: nat)
    requires off <= |s|
    ensures Splice(s, off, []) == s
  {
  }

  lemma SpliceLength(s: seq<Byte>, off: nat, d: seq<Byte>)
    requires off <= |s|
    ensures |Splice(s, off, d)| == if off + |d| < |s| then |s| else off + |d|
  {
  }

  lemma SpliceTwice(s: seq<Byte>, off: nat, d: seq<Byte>, e: seq<Byte>)
    requires off <= |s| && off + |d| <= |Splice(s, off, d)|
    ensures Splice(Splice(s, off, d), off + |d|, e) == Splice(s, off, d + e)
  {
  }

  // Sizes are no part of where the bytes are.
  lemma Resized(l: Superblock, blocks: Blocks, inodes: Inodes, owner: Owners, files: Files, ino: nat, size: nat)
    requires Sound(l, blocks, inodes, owner, 0, 0) && HoldAll(blocks, inodes, files) && ino in inodes
    ensures var inodes' := inodes[ino := inodes[ino].(size := size)];
      Sound(l, blocks, inodes', owner, 0, 0) && HoldAll(blocks, inodes', files)
  {
    hide Holds;
    var inodes': Inodes := inodes[ino := inodes[ino].(size := size)];
    assert forall i, k :: AddrOf(blocks, inodes', i, k) == AddrOf(blocks, inodes, i, k);
    forall i | i in inodes ensures Holds(blocks, inodes', i, files[i]) {
      HoldsFrame(blocks, blocks, inodes, inodes', i, files[i]);
    }
  }

  lemma NoneDead(l: Superblock, blocks: Blocks, inodes: Inodes, owner: Owners, ino: nat, ino': nat)
    requires Sound(l, blocks, inodes, owner, ino, 0)
    ensures Sound(l, blocks, inodes, owner, ino', 0)
  {
    hide AddrOf;
    assert forall i, k :: !Dead(ino, 0, i, k) && !Dead(ino', 0, i, k);
  }

  lemma IndirectThere(l: Superblock, blocks: Blocks, inodes: Inodes, owner: Owners, ino: nat, done: nat)
    requires Sound(l, blocks, inodes, owner, ino, done) && ino in inodes && inodes[ino].addrs[NDIRECT] != 0
    ensures inodes[ino].addrs[NDIRECT] in blocks && l.datastart <= inodes[ino].addrs[NDIRECT]
  {
  }

  lemma Forget(blocks: Blocks, inodes: Inodes, files: Files, ino: nat)
    requires HoldAll(blocks, inodes, files) && ino in inodes
    ensures HoldAll(blocks, inodes, files[ino := []])
  {
    hide AddrOf;
  }

  lemma DirectAddr(blocks: Blocks, inodes: Inodes, ino: nat, k: nat)
    requires ino in inodes && (k < NDIRECT || k == MAXFILE)
    ensures AddrOf(blocks, inodes, ino, k) == inodes[ino].addrs[if k == MAXFILE then NDIRECT else k]
  {
  }

  lemma EntryAddr(blocks: Blocks, inodes: Inodes, ino: nat, j: nat)
    requires ino in inodes && j < NINDIRECT && inodes[ino].addrs[NDIRECT] != 0 && inodes[ino].addrs[NDIRECT] in blocks
    ensures AddrOf(blocks, inodes, ino, NDIRECT + j) == U32At(blocks[inodes[ino].addrs[NDIRECT]], j)
  {
  }

  lemma ZeroDead(l: Superblock, blocks: Blocks, inodes: Inodes, owner: Owners, files: Files, ino: nat, i: nat)
    requires Sound(l, blocks, inodes, owner, ino, i + 1) && HoldAll(blocks, inodes, files)
    requires ino in inodes && files[ino] == [] && i < NDIRECT
    ensures var inodes' := inodes[ino := inodes[ino].(addrs := inodes[ino].addrs[i := 0])];
      && Sound(l, blocks, inodes', owner, ino, i + 1) && HoldAll(blocks, inodes', files)
      && forall x, k :: x != ino ==> AddrOf(blocks, inodes', x, k) == AddrOf(blocks, inodes, x, k)
  {
    hide AddrOf, Holds;
    var inodes' := inodes[ino := inodes[ino].(addrs := inodes[ino].addrs[i := 0])];
    SetDirect(blocks, inodes, ino, i, 0);
    forall x | x in inodes ensures Holds(blocks, inodes', x, files[x]) {
      if x == ino {
        NothingHeld(blocks, inodes', x);
      } else {
        HoldsFrame(blocks, blocks, inodes, inodes', x, files[x]);
      }
    }
  }

  lemma NoIndirect(l: Superblock, blocks: Blocks, inodes: Inodes, owner: Owners, ino: nat)
    requires Sound(l, blocks, inodes, owner, ino, NDIRECT) && ino in inodes && inodes[ino].addrs[NDIRECT] == 0
    ensures Sound(l, blocks, inodes, owner, ino, MAXFILE + 1)
  {
    assert forall k: nat :: NDIRECT <= k <= MAXFILE ==> AddrOf(blocks, inodes, ino, k) == 0;
    assert forall a :: a in owner ==> !Dead(ino, MAXFILE + 1, owner[a].ino, owner[a].k);
  }

  lemma EmptiedRest(l: Superblock, blocks: Blocks, inodes: Inodes, inodes': Inodes, owner: Owners, files: Files,
                    ino: nat)
    requires HoldAll(blocks, inodes, files) && inodes'.Keys == inodes.Keys && ino in inodes && files[ino] == []
    requires forall i :: i in inodes && i != ino ==> inodes'[i] == inodes[i]
    requires forall k :: 0 <= k <= NDIRECT ==> inodes'[ino].addrs[k] == 0
    ensures HoldAll(blocks, inodes', files)
    ensures forall i, k :: i != ino ==> AddrOf(blocks, inodes', i, k) == AddrOf(blocks, inodes, i, k)
    ensures forall k: nat :: k <= MAXFILE ==> AddrOf(blocks, inodes', ino, k) == 0
  {
    forall i | i in inodes ensures Holds(blocks, inodes', i, files[i]) {
      if i != ino {
        HoldsFrame(blocks, blocks, inodes, inodes', i, files[i]);
      }
    }
  }

  lemma TruncDone(l: Superblock, blocks0: Blocks, inodes0: Inodes, owner0: Owners, blocks: Blocks, inodes: Inodes,
                  owner: Owners,
                  files: Files, ino: nat)
    requires Sound(l, blocks0, inodes0, owner0, 0, 0) && Sound(l, blocks, inodes, owner, ino, MAXFILE + 1)
    requires HoldAll(blocks, inodes, files) && ino in inodes && files[ino] == [] && inodes.Keys == inodes0.Keys
    requires forall i, k :: i != ino ==> AddrOf(blocks, inodes, i, k) == AddrOf(blocks0, inodes0, i, k)
    ensures var inodes' := inodes[ino := RawInode(seq(NDIRECT + 1, _ => 0), 0)];
      Sound(l, blocks, inodes', owner, 0, 0) && HoldAll(blocks, inodes', files)
    ensures forall a :: a in owner <==> a in owner0 && owner0[a].ino != ino
    ensures forall a :: a in owner ==> owner[a] == owner0[a]
  {
    hide HoldAll, Sound, AddrOf;
    var inodes' := inodes[ino := RawInode(seq(NDIRECT + 1, _ => 0), 0)];
    Emptied(l, blocks, inodes, inodes', owner, ino);
    EmptiedRest(l, blocks, inodes, inodes', owner, files, ino);
    NoneDead(l, blocks, inodes', owner, ino, 0);
    OwnersAfter(l, blocks0, inodes0, owner0, blocks, inodes', owner, ino);
  }

  // Who owns what once inode ino owns nothing.
  lemma OwnersAfter(l: Superblock, blocks: Blocks, inodes: Inodes, owner: Owners, blocks': Blocks, inodes': Inodes,
                    owner': Owners, ino: nat)
    requires Sound(l, blocks, inodes, owner, 0, 0) && Sound(l, blocks', inodes', owner', 0, 0)
      && inodes'.Keys == inodes.Keys
    requires forall i, k :: i != ino ==> AddrOf(blocks', inodes', i, k) == AddrOf(blocks, inodes, i, k)
    requires forall k: nat :: k <= MAXFILE ==> AddrOf(blocks', inodes', ino, k) == 0
    ensures forall a :: a in owner' <==> a in owner && owner[a].ino != ino
    ensures forall a :: a in owner' ==> owner'[a] == owner[a]
  {
    hide AddrOf;
    forall a | a in owner && owner[a].ino != ino ensures a in owner' && owner'[a] == owner[a] {
      assert !Dead(0, 0, owner[a].ino, owner[a].k);
    }
    forall a | a in owner' ensures a in owner && owner[a] == owner'[a] && owner[a].ino != ino {
      assert !Dead(0, 0, owner'[a].ino, owner'[a].k);
    }
  }

  const IPB: nat := 16                                             // inodes in a block
  const FILEMAX: nat := (CrashRecovery.MAXOPBLOCKS - 1 - 1 - 2) / 2 * BSIZE      // filewrite's bytes per transaction

  lemma ChunkFits(l: Superblock, off: nat, n: nat)
    requires 0 < n <= FILEMAX
    ensures l.size <= BPB ==> LogNeed(l, off, n) < CrashRecovery.MAXOPBLOCKS
  {
    assert off == off / BSIZE * BSIZE + off % BSIZE;
    assert Ceil(off + n) <= off / BSIZE + 4;
  }

  // Chunk after chunk comes to one splice.
  lemma Appended(s: seq<Byte>, off: nat, data: seq<Byte>, i: nat, before: seq<Byte>, n1: nat, done: nat)
    requires i + n1 <= |data| && done <= n1 && off + i <= |before|
    requires if i == 0 then before == s else off <= |s| && before == Splice(s, off, data[..i])
    ensures off <= |s| && Splice(before, off + i, data[i..i + n1][..done]) == Splice(s, off, data[..i + done])
    ensures off + i + done <= |Splice(s, off, data[..i + done])|
    ensures i + done == 0 ==> Splice(s, off, data[..i + done]) == s
  {
    hide Splice;
    SpliceNothing(s, off);
    assert data[..0] == [];
    SpliceTwice(s, off, data[..i], data[i..i + n1][..done]);
    assert data[..i] + data[i..i + n1][..done] == data[..i + done];
    SpliceLength(s, off, data[..i + done]);
  }

  // Of the data to go at off, the first i bytes are in the file.
  ghost predicate Written(f0: Files, f: Files, ino: nat, off: nat, data: seq<Byte>, i: nat) {
    && ino in f0 && i <= |data|
    && if i == 0 then f == f0 else off <= |f0[ino]| && f == f0[ino := Splice(f0[ino], off, data[..i])]
  }

  lemma WrittenNothing(f: Files, ino: nat, off: nat, data: seq<Byte>)
    requires ino in f
    ensures Written(f, f, ino, off, data, 0)
  {
  }

  lemma WrittenMore(f0: Files, f1: Files, f2: Files, ino: nat, off: nat, data: seq<Byte>, i: nat, n1: nat, done: nat)
    requires Written(f0, f1, ino, off, data, i) && i + n1 <= |data| && done <= n1 && ino in f1 && off + i <= |f1[ino]|
    requires f2 == f1[ino := Splice(f1[ino], off + i, data[i..i + n1][..done])]
    ensures Written(f0, f2, ino, off, data, i + done)
  {
    hide Splice;
    Appended(f0[ino], off, data, i, f1[ino], n1, done);
    if i + done == 0 {
      assert f2 == f1;
    }
  }

  // How many blocks writing n bytes at off may log: the free map, the inode, the indirect block, the data.
  function LogNeed(l: Superblock, off: nat, n: nat): int {
    (l.size / BPB + 1) + 2 + (Ceil(off + n) - off / BSIZE)
  }

  /**
   mkfs gives the root directory, whose `used` bytes are in blocks 0 ..
   Ceil(used), a rounded-up size.  Some byte of that size has no block exactly
   when the directory ends on a block boundary.
   */
  lemma RootHasHole(blocks: Blocks, inodes: Inodes, root: nat, used: nat)
    requires forall k: nat :: AddrOf(blocks, inodes, root, k) != 0 <==> k < Ceil(used)
    ensures HasHole(blocks, inodes, root, 0, (used / BSIZE + 1) * BSIZE) <==> used % BSIZE == 0
  {
    hide AddrOf;
    var size := (used / BSIZE + 1) * BSIZE;
    if used % BSIZE != 0 {
      assert used / BSIZE + 1 == Ceil(used);
      forall p: nat | p < size ensures AddrOf(blocks, inodes, root, p / BSIZE) != 0 {
        assert p / BSIZE < Ceil(used);
      }
    } else {
      var p := used / BSIZE * BSIZE;
      assert p / BSIZE == used / BSIZE == Ceil(used) && p < size;
      assert AddrOf(blocks, inodes, root, p / BSIZE) == 0;
    }
  }

  // The number of blocks that n bytes take.
  function Ceil(n: nat): nat {
    (n + BSIZE - 1) / BSIZE
  }

  // The blocks of the free map.
  ghost function MapBlocks(l: Superblock): set<nat> {
    set b: nat | b <= l.bmapstart + l.size / BPB && IsMapBlock(l, b)
  }

  ghost predicate IsMapBlock(l: Superblock, b: nat) {
    l.bmapstart <= b <= l.bmapstart + l.size / BPB
  }

  ghost function NonZero(a: nat): set<nat> {
    if a == 0 then {} else {a}
  }

  ghost predicate Full(l: Superblock, blocks: Blocks) {
    forall b: nat :: b < l.size ==> Used(l, blocks, b)
  }

  ghost predicate MapLogged(l: Superblock, logged: set<nat>) {
    exists w :: IsMapBlock(l, w) && w in logged
  }

  // An allocation that gave block a, or 0: it fails exactly on a full disk, and logs the free map unless it does.
  ghost predicate Charged(l: Superblock, blocks: Blocks, logged: set<nat>, logged': set<nat>, a: nat) {
    && (a == 0 <==> Full(l, blocks)) && logged <= logged'
    && if a == 0 then logged' == logged else MapLogged(l, logged')
  }

  // Some byte from lo to hi of the inode has no block.
  ghost predicate HasHole(blocks: Blocks, inodes: Inodes, ino: nat, lo: nat, hi: nat) {
    exists p: nat :: lo <= p < hi && AddrOf(blocks, inodes, ino, p / BSIZE) == 0
  }

  // Where a read of n bytes at off ends in a file of this size.
  function ReadEnd(size: nat, off: nat, n: nat): nat {
    if off > size || off + n >= UINT then off else Min(off + n, size)
  }

  // What bmap does to the log: nothing where there is a block or no room for one.
  ghost predicate Mapped(l: Superblock, b: Blocks, i: Inodes, logged: set<nat>, b': Blocks, i': Inodes,
                         logged': set<nat>,
                         ino: nat, bn: nat, addr: nat) {
    && logged <= logged'
    && if AddrOf(b, i, ino, bn) != 0 then addr != 0 && b' == b && i' == i && logged' == logged
       else if Full(l, b) then addr == 0 && logged' == logged
       else MapLogged(l, logged')
  }

  // A read that began with nothing logged has come from off to at.
  ghost predicate Probed(l: Superblock, blocks0: Blocks, inodes0: Inodes, blocks: Blocks, inodes: Inodes,
                         logged: set<nat>,
                         ino: nat, off: nat, at: nat, end: nat) {
    if logged == {} then blocks == blocks0 && inodes == inodes0 && !HasHole(blocks0, inodes0, ino, off, at)
    else !Full(l, blocks0) && HasHole(blocks0, inodes0, ino, off, end)
  }

  lemma NoHoleYet(l: Superblock, blocks: Blocks, inodes: Inodes, ino: nat, off: nat, end: nat)
    ensures !HasHole(blocks, inodes, ino, off, off) && Probed(l, blocks, inodes, blocks, inodes, {}, ino, off, off, end)
  {
  }

  lemma ProbedDone(l: Superblock, blocks0: Blocks, inodes0: Inodes, blocks: Blocks, inodes: Inodes, logged: set<nat>,
                   ino: nat, off: nat, end: nat)
    requires Probed(l, blocks0, inodes0, blocks, inodes, logged, ino, off, end, end)
    ensures logged == {} <==> Full(l, blocks0) || !HasHole(blocks0, inodes0, ino, off, end)
  {
  }

  lemma SizeFits(blocks: Blocks, inodes: Inodes, files: Files, ino: nat)
    requires HoldAll(blocks, inodes, files) && ino in inodes
      && (Sized(inodes, files) || inodes[ino].size <= MAXFILE * BSIZE)
    ensures inodes[ino].size <= MAXFILE * BSIZE
  {
    assert Holds(blocks, inodes, ino, files[ino]);
  }

  // One more piece of the range, all of it in the block of byte at.
  lemma HoleStep(blocks: Blocks, inodes: Inodes, ino: nat, off: nat, at: nat, m: nat)
    requires off <= at && at % BSIZE + m <= BSIZE && AddrOf(blocks, inodes, ino, at / BSIZE) != 0
    requires !HasHole(blocks, inodes, ino, off, at)
    ensures !HasHole(blocks, inodes, ino, off, at + m)
  {
    hide AddrOf;
    forall p: nat | at <= p < at + m ensures p / BSIZE == at / BSIZE {
    }
  }

  lemma ProbedMore(l: Superblock, blocks0: Blocks, inodes0: Inodes, b: Blocks, i: Inodes, logged: set<nat>,
                   b': Blocks, i': Inodes, logged': set<nat>, ino: nat, off: nat, at: nat, m: nat, end: nat, addr: nat)
    requires off <= at < at + m <= end && at % BSIZE + m <= BSIZE
    requires Probed(l, blocks0, inodes0, b, i, logged, ino, off, at, end)
    requires Mapped(l, b, i, logged, b', i', logged', ino, at / BSIZE, addr)
    ensures addr != 0 ==> Probed(l, blocks0, inodes0, b', i', logged', ino, off, at + m, end)
    ensures addr == 0 ==>
      if logged' == {} then Full(l, blocks0) else !Full(l, blocks0) && HasHole(blocks0, inodes0, ino, off, end)
  {
    hide AddrOf, Full, Used;
    if logged == {} && AddrOf(b, i, ino, at / BSIZE) != 0 {
      HoleStep(b, i, ino, off, at, m);
    }
  }

  /** The volume between two transactions of filewrite, and what the last one logged. */
  datatype Turn = Turn(files: Files, blocks: Blocks, inodes: Inodes, logged: set<nat>)

  // One transaction on inode ino: all it changed is logged, and that is few blocks where the free map is one.
  ghost predicate OneTurn(l: Superblock, ino: nat, before: Turn, after: Turn) {
    && Covers(before.blocks, after.blocks, after.logged) && OthersSame(before.inodes, after.inodes, ino)
    && (after.inodes != before.inodes ==> ino / IPB + l.inodestart in after.logged)
    && (l.size <= BPB ==> |after.logged| < CrashRecovery.MAXOPBLOCKS)
  }

  // A run of such transactions: after t of them, t chunks of the data are in the file, or all w bytes.
  ghost predicate Course(l: Superblock, ino: nat, off: nat, data: seq<Byte>, turns: seq<Turn>, w: nat) {
    && |turns| > 0
    && (forall t :: 0 <= t < |turns| ==>
      Written(turns[0].files, turns[t].files, ino, off, data, Min(t * FILEMAX, w)))
    && forall t :: 0 <= t < |turns| - 1 ==> OneTurn(l, ino, turns[t], turns[t + 1])
  }

  // The bytes after t full chunks and one that came to `done` of n1 bytes.
  lemma TurnCount(n: nat, t: nat, i: nat, n1: nat, done: nat)
    requires i < n && i == t * FILEMAX && n1 == Min(n - i, FILEMAX) && done <= n1
    ensures i + done <= (t + 1) * FILEMAX
    ensures done < n1 ==> (i + done) / FILEMAX == t
    ensures i + n1 == n ==> t + 1 == (n + FILEMAX - 1) / FILEMAX
    ensures i + n1 < n ==> i + n1 == (t + 1) * FILEMAX
  {
    assert FILEMAX == 3072;
  }

  lemma CourseStarts(l: Superblock, ino: nat, off: nat, data: seq<Byte>, now: Turn)
    requires Written(now.files, now.files, ino, off, data, 0)
    ensures Course(l, ino, off, data, [now], 0)
  {
  }

  lemma CourseMore(l: Superblock, ino: nat, off: nat, data: seq<Byte>, turns: seq<Turn>, w: nat, w': nat, now: Turn)
    requires Course(l, ino, off, data, turns, w) && w == (|turns| - 1) * FILEMAX <= w' <= |turns| * FILEMAX
    requires Written(turns[0].files, now.files, ino, off, data, w') && OneTurn(l, ino, turns[|turns| - 1], now)
    ensures Course(l, ino, off, data, turns + [now], w')
  {
    hide Written, OneTurn;
    var turns' := turns + [now];
    forall t | 0 <= t < |turns'|
      ensures Written(turns[0].files, turns'[t].files, ino, off, data, Min(t * FILEMAX, w'))
    {
      if t < |turns| {
        assert Min(t * FILEMAX, w') == Min(t * FILEMAX, w);
      }
    }
  }

  // Every block that has changed is in `logged`.
  ghost predicate Covers(blocks0: Blocks, blocks: Blocks, logged: set<nat>) {
    && blocks0.Keys <= blocks.Keys
    && forall b :: b in blocks ==> b in logged || (b in blocks0 && blocks[b] == blocks0[b])
  }

  lemma NothingChanged(blocks: Blocks, logged: set<nat>)
    ensures Covers(blocks, blocks, logged)
  {
  }

  lemma CoversMore(blocks0: Blocks, blocks1: Blocks, logged1: set<nat>, blocks: Blocks, logged: set<nat>)
    requires Covers(blocks0, blocks1, logged1) && Covers(blocks1, blocks, logged) && logged1 <= logged
    ensures Covers(blocks0, blocks, logged)
  {
  }

  lemma CoversWider(blocks0: Blocks, blocks: Blocks, logged: set<nat>, b: nat)
    requires Covers(blocks0, blocks, logged)
    ensures Covers(blocks0, blocks, logged + {b})
  {
  }

  lemma CoversOne(blocks0: Blocks, blocks: Blocks, logged: set<nat>, b: nat, blk: RawBlock)
    requires Covers(blocks0, blocks, logged)
    ensures Covers(blocks0, blocks[b := blk], logged + {b})
  {
  }

  ghost predicate OthersSame(inodes0: Inodes, inodes: Inodes, ino: nat) {
    inodes.Keys == inodes0.Keys && forall i :: i in inodes && i != ino ==> inodes[i] == inodes0[i]
  }

  // The blocks of a file's blocks lo .. hi.
  ghost function DataBlocks(blocks: Blocks, inodes: Inodes, ino: nat, lo: nat, hi: nat): set<nat> {
    set k: nat | lo <= k < hi && AddrOf(blocks, inodes, ino, k) != 0 :: AddrOf(blocks, inodes, ino, k)
  }

  // What writing the file's blocks lo .. hi may have logged.
  ghost predicate Touched(l: Superblock, blocks0: Blocks, inodes0: Inodes, logged0: set<nat>, blocks: Blocks,
                          inodes: Inodes, logged: set<nat>,
                          ino: nat, lo: nat, hi: nat)
  {
    && ino in inodes && ino in inodes0
    && logged <= logged0 + MapBlocks(l) + NonZero(inodes[ino].addrs[NDIRECT]) + DataBlocks(blocks, inodes, ino, lo, hi)
    && (forall k: nat :: k < MAXFILE && AddrOf(blocks0, inodes0, ino, k) != 0 ==>
        AddrOf(blocks, inodes, ino, k) == AddrOf(blocks0, inodes0, ino, k))
    && (inodes0[ino].addrs[NDIRECT] != 0 ==> inodes[ino].addrs[NDIRECT] == inodes0[ino].addrs[NDIRECT])
  }

  lemma TouchedNothing(l: Superblock, blocks: Blocks, inodes: Inodes, logged: set<nat>, ino: nat, lo: nat, hi: nat)
    requires ino in inodes
    ensures Touched(l, blocks, inodes, logged, blocks, inodes, logged, ino, lo, hi)
  {
  }

  lemma TouchedOne(l: Superblock, b0: Blocks, i0: Inodes, l0: set<nat>, b1: Blocks, i1: Inodes, l1: set<nat>, ino: nat,
                   bn: nat)
    requires ino in i0 && ino in i1 && bn < MAXFILE
    requires l1 <= l0 + MapBlocks(l) + NonZero(AddrOf(b1, i1, ino, bn)) + NonZero(i1[ino].addrs[NDIRECT])
    requires forall k: nat :: k < MAXFILE && k != bn ==> AddrOf(b1, i1, ino, k) == AddrOf(b0, i0, ino, k)
    requires AddrOf(b0, i0, ino, bn) != 0 ==> AddrOf(b1, i1, ino, bn) == AddrOf(b0, i0, ino, bn)
    requires i0[ino].addrs[NDIRECT] != 0 ==> i1[ino].addrs[NDIRECT] == i0[ino].addrs[NDIRECT]
    ensures Touched(l, b0, i0, l0, b1, i1, l1, ino, bn, bn + 1)
  {
    hide AddrOf, MapBlocks;
    assert NonZero(AddrOf(b1, i1, ino, bn)) <= DataBlocks(b1, i1, ino, bn, bn + 1);
  }

  lemma TouchedPatch(l: Superblock, b0: Blocks, i0: Inodes, l0: set<nat>, b1: Blocks, i1: Inodes, l1: set<nat>,
                     ino: nat, bn: nat, blk: RawBlock)
    requires Touched(l, b0, i0, l0, b1, i1, l1, ino, bn, bn + 1) && AddrOf(b1, i1, ino, bn) != 0
    requires forall i, k :: AddrOf(b1[AddrOf(b1, i1, ino, bn) := blk], i1, i, k) == AddrOf(b1, i1, i, k)
    ensures var a := AddrOf(b1, i1, ino, bn); Touched(l, b0, i0, l0, b1[a := blk], i1, l1 + {a}, ino, bn, bn + 1)
  {
    hide AddrOf, MapBlocks;
    var a := AddrOf(b1, i1, ino, bn);
    assert AddrOf(b1[a := blk], i1, ino, bn) in DataBlocks(b1[a := blk], i1, ino, bn, bn + 1);
    assert DataBlocks(b1[a := blk], i1, ino, bn, bn + 1) == DataBlocks(b1, i1, ino, bn, bn + 1);
  }

  // The written file has the data; the others are as before.
  lemma PatchAll(l: Superblock, blocks: Blocks, inodes: Inodes, owner: Owners, files: Files, ino: nat, bn: nat, o: nat,
                 data: seq<Byte>)
    requires Sound(l, blocks, inodes, owner, 0, 0) && HoldAll(blocks, inodes, files)
    requires ino in inodes && bn < MAXFILE && AddrOf(blocks, inodes, ino, bn) != 0
      && AddrOf(blocks, inodes, ino, bn) in blocks
    requires o + |data| <= BSIZE && bn * BSIZE + o <= |files[ino]|
    ensures var a := AddrOf(blocks, inodes, ino, bn);
      HoldAll(blocks[a := Patch(blocks[a], o, data)], inodes, files[ino := Splice(files[ino], bn * BSIZE + o, data)])
  {
    hide Sound, AddrOf, Holds, Splice, Patch;
    var a := AddrOf(blocks, inodes, ino, bn);
    var blk := Patch(blocks[a], o, data);
    PatchHolds(l, blocks, inodes, owner, ino, bn, o, data, files[ino]);
    forall i | i in inodes && i != ino ensures Holds(blocks[a := blk], inodes, i, files[i]) {
      PatchElsewhere(l, blocks, inodes, owner, ino, bn, blk, i, files[i]);
    }
  }

  lemma {:induction false} CountData(blocks: Blocks, inodes: Inodes, ino: nat, lo: nat, hi: nat)
    requires lo <= hi
    ensures |DataBlocks(blocks, inodes, ino, lo, hi)| <= hi - lo
    decreases hi
  {
    hide AddrOf;
    if lo < hi {
      CountData(blocks, inodes, ino, lo, hi - 1);
      var last := AddrOf(blocks, inodes, ino, hi - 1);
      assert DataBlocks(blocks, inodes, ino, lo, hi) <= DataBlocks(blocks, inodes, ino, lo, hi - 1) + {last};
      Subset(DataBlocks(blocks, inodes, ino, lo, hi), DataBlocks(blocks, inodes, ino, lo, hi - 1) + {last});
    } else {
      assert DataBlocks(blocks, inodes, ino, lo, hi) == {};
    }
  }

  lemma {:induction false} CountRange(s: set<nat>, lo: nat, hi: nat)
    requires lo <= hi && forall b :: b in s ==> lo <= b < hi
    ensures |s| <= hi - lo
    decreases hi
  {
    if lo < hi {
      CountRange(s - {hi - 1}, lo, hi - 1);
    } else {
      assert s == {};
    }
  }

  lemma TouchedCount(l: Superblock, b0: Blocks, i0: Inodes, l0: set<nat>, b1: Blocks, i1: Inodes, l1: set<nat>,
                     ino: nat, lo: nat, hi: nat, inodeBlock: nat)
    requires Touched(l, b0, i0, l0, b1, i1, l1, ino, lo, hi) && lo <= hi
    ensures |l1 + {inodeBlock} - l0| <= l.size / BPB + 1 + 2 + (hi - lo)
  {
    hide AddrOf, DataBlocks;
    var map', ind, data := MapBlocks(l), NonZero(i1[ino].addrs[NDIRECT]), DataBlocks(b1, i1, ino, lo, hi);
    CountRange(map', l.bmapstart, l.bmapstart + l.size / BPB + 1);
    CountData(b1, i1, ino, lo, hi);
    Subset(l1 + {inodeBlock} - l0, map' + ind + data + {inodeBlock});
  }

  lemma TouchedMore(l: Superblock, b0: Blocks, i0: Inodes, l0: set<nat>, b1: Blocks, i1: Inodes, l1: set<nat>,
                    b2: Blocks, i2: Inodes, l2: set<nat>, ino: nat, lo: nat, hi: nat, at: nat)
    requires Touched(l, b0, i0, l0, b1, i1, l1, ino, lo, hi) && Touched(l, b1, i1, l1, b2, i2, l2, ino, at, at + 1)
    requires lo <= at < hi <= MAXFILE
    ensures Touched(l, b0, i0, l0, b2, i2, l2, ino, lo, hi)
  {
    hide AddrOf;
  }

  // The slot that addrs[idx] is.
  function SlotOf(ino: nat, idx: nat): Slot {
    Slot(ino, if idx == NDIRECT then MAXFILE else idx)
  }

  ghost predicate SameSizes(inodes: Inodes, inodes': Inodes) {
    inodes'.Keys == inodes.Keys && forall i :: i in inodes ==> inodes'[i].size == inodes[i].size
  }

  lemma SetAddr(blocks: Blocks, inodes: Inodes, ino: nat, idx: nat, a: nat)
    requires ino in inodes && idx <= NDIRECT && inodes[ino].addrs[idx] == 0 && a in blocks && blocks[a] == ZERO
    ensures SlotSet(blocks, inodes, blocks, inodes[ino := inodes[ino].(addrs := inodes[ino].addrs[idx := a])],
      SlotOf(ino, idx), a)
  {
    if idx < NDIRECT {
      SetDirect(blocks, inodes, ino, idx, a);
    } else {
      SetIndirect(blocks, inodes, ino, a);
    }
  }

  lemma SlotWasEmpty(blocks: Blocks, inodes: Inodes, ino: nat, idx: nat)
    requires ino in inodes && idx <= NDIRECT && inodes[ino].addrs[idx] == 0
    ensures AddrOf(blocks, inodes, ino, SlotOf(ino, idx).k) == 0
  {
  }

  lemma IndirectOwned(l: Superblock, blocks: Blocks, inodes: Inodes, owner: Owners, ino: nat)
    requires Sound(l, blocks, inodes, owner, 0, 0) && ino in inodes && inodes[ino].addrs[NDIRECT] != 0
    ensures var ind := inodes[ino].addrs[NDIRECT];
      ind in owner && owner[ind] == Slot(ino, MAXFILE) && l.datastart <= ind && ind in blocks
  {
    assert AddrOf(blocks, inodes, ino, MAXFILE) == inodes[ino].addrs[NDIRECT] && !Dead(0, 0, ino, MAXFILE);
  }

  // Filling an empty slot moves no file byte.
  lemma AdoptFiles(l: Superblock, blocks: Blocks, inodes: Inodes, blocks': Blocks, inodes': Inodes, owner: Owners,
                   s: Slot, a: nat, files: Files)
    requires Sound(l, blocks, inodes, owner, 0, 0) && HoldAll(blocks, inodes, files) && inodes'.Keys == inodes.Keys
    requires SlotSet(blocks, inodes, blocks', inodes', s, a) && AddrOf(blocks, inodes, s.ino, s.k) == 0
    requires forall b :: b in owner && owner[b].k < MAXFILE ==> b in blocks && b in blocks' && blocks'[b] == blocks[b]
    ensures HoldAll(blocks', inodes', files)
  {
    hide AddrOf, Holds;
    forall i | i in inodes ensures Holds(blocks', inodes', i, files[i]) {
      assert forall k :: 0 <= k < MAXFILE && AddrOf(blocks, inodes, i, k) != 0 ==> !Dead(0, 0, i, k);
      HoldsFrame(blocks, blocks', inodes, inodes', i, files[i]);
    }
  }

  lemma OwnersInRange(l: Superblock, blocks: Blocks, inodes: Inodes, owner: Owners)
    requires Sound(l, blocks, inodes, owner, 0, 0)
    ensures forall a :: a in owner ==> l.datastart <= a < l.size && a in blocks
  {
  }

  lemma MetaOwnsNothing(l: Superblock, blocks: Blocks, inodes: Inodes, owner: Owners, ino: nat, done: nat, w: nat)
    requires Grounded(l, blocks, inodes, owner, ino, done) && w < l.datastart
    ensures w !in owner
  {
  }
}
