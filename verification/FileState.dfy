/**
 Which block belongs to what, in kernel/fs.c: the free map, the block numbers
 reachable from inodes, and the bytes of files.

 A slot names one place that can hold a block number: slot k < MAXFILE of
 inode i is the address of the file's block k, slot MAXFILE the indirect block.
 */
module FileState {
  import opened Common
  import opened BlockBytes

  const NDIRECT: nat := 12
  const MAXFILE: nat := NDIRECT + NINDIRECT

  // The part of the superblock that block allocation and iupdate read.
  datatype Superblock = Superblock(size: nat, inodestart: nat, bmapstart: nat, datastart: nat)

  ghost predicate WellLaidOut(l: Superblock) {
    0 < l.bmapstart && l.bmapstart + l.size / BPB + 1 <= l.datastart <= l.size < UINT
  }

  datatype RawInode = RawInode(addrs: seq<nat>, size: nat)
  type Inode = x: RawInode | |x.addrs| == NDIRECT + 1 witness RawInode(seq(NDIRECT + 1, _ => 0), 0)
  type Blocks = map<nat, RawBlock>
  type Inodes = map<nat, Inode>

  datatype Slot = Slot(ino: nat, k: nat)
  type Owners = map<nat, Slot>
  type Files = map<nat, seq<Byte>>

  // The block number in slot k of an inode, 0 when there is none.
  function Entry(blocks: Blocks, ip: Inode, k: nat): nat {
    if k < NDIRECT then ip.addrs[k]
    else if k == MAXFILE then ip.addrs[NDIRECT]
    else if k > MAXFILE || ip.addrs[NDIRECT] == 0 || ip.addrs[NDIRECT] !in blocks then 0
    else U32At(blocks[ip.addrs[NDIRECT]], k - NDIRECT)
  }

  function AddrOf(blocks: Blocks, inodes: Inodes, i: nat, k: nat): nat {
    if i in inodes then Entry(blocks, inodes[i], k) else 0
  }

  // BBLOCK, and the bit of block b in it
  predicate Used(l: Superblock, blocks: Blocks, b: nat) {
    b / BPB + l.bmapstart in blocks && BitAt(blocks[b / BPB + l.bmapstart], b % BPB)
  }

  ghost predicate Shaped(l: Superblock, blocks: Blocks, inodes: Inodes) {
    && (forall b :: 0 <= b < l.size ==> b in blocks)
    && (forall i :: i in inodes ==> inodes[i].addrs[NDIRECT] == 0 || l.datastart <= inodes[i].addrs[NDIRECT] < l.size)
  }

  // The slots of inode ino below `done` no longer count: itrunc has freed their blocks.
  ghost predicate Dead(ino: nat, done: nat, i: nat, k: nat) {
    i == ino && k < done
  }

  // Every block number in a slot belongs to that slot alone.
  ghost predicate Claimed(blocks: Blocks, inodes: Inodes, owner: Owners, ino: nat, done: nat) {
    forall i, k :: i in inodes && 0 <= k <= MAXFILE && AddrOf(blocks, inodes, i, k) != 0 && !Dead(ino, done, i, k) ==>
      AddrOf(blocks, inodes, i, k) in owner && owner[AddrOf(blocks, inodes, i, k)] == Slot(i, k)
  }

  // And every owned block is a data block, found in its owner's slot.
  ghost predicate Grounded(l: Superblock, blocks: Blocks, inodes: Inodes, owner: Owners, ino: nat, done: nat) {
    forall a :: a in owner ==>
      && l.datastart <= a < l.size
      && owner[a].ino in inodes && owner[a].k <= MAXFILE && !Dead(ino, done, owner[a].ino, owner[a].k)
      && AddrOf(blocks, inodes, owner[a].ino, owner[a].k) == a
  }

  // The free map marks the metadata, the owned blocks, and the one block just allocated (0 for none).
  ghost predicate Marked(l: Superblock, blocks: Blocks, owner: Owners, spare: nat) {
    forall b: nat :: b < l.size ==> (Used(l, blocks, b) <==> b < l.datastart || b in owner || b == spare)
  }

  // The blocks of inode i hold the bytes s, with no hole among them.
  ghost predicate Holds(blocks: Blocks, inodes: Inodes, i: nat, s: seq<Byte>) {
    && |s| <= MAXFILE * BSIZE
    && forall p :: 0 <= p < |s| ==> ByteIs(blocks, AddrOf(blocks, inodes, i, p / BSIZE), p % BSIZE, s[p])
  }

  ghost predicate ByteIs(blocks: Blocks, a: nat, o: nat, v: Byte) {
    a != 0 && a in blocks && o < BSIZE && blocks[a][o] == v
  }

  ghost predicate HoldAll(blocks: Blocks, inodes: Inodes, files: Files) {
    forall i :: i in inodes ==> i in files && Holds(blocks, inodes, i, files[i])
  }

  ghost predicate Sized(inodes: Inodes, files: Files) {
    forall i :: i in inodes ==> i in files && inodes[i].size == |files[i]|
  }

  ghost predicate Sound(l: Superblock, blocks: Blocks, inodes: Inodes, owner: Owners, ino: nat, done: nat) {
    && WellLaidOut(l) && Shaped(l, blocks, inodes)
    && Claimed(blocks, inodes, owner, ino, done) && Grounded(l, blocks, inodes, owner, ino, done)
  }

  // ---- what the invariant says

  // No block is reachable twice.
  lemma NoSharing(l: Superblock, blocks: Blocks, inodes: Inodes, owner: Owners, i: nat, k: nat, i': nat, k': nat)
    requires Sound(l, blocks, inodes, owner, 0, 0)
    requires i in inodes && i' in inodes && k <= MAXFILE && k' <= MAXFILE && (i, k) != (i', k')
    requires AddrOf(blocks, inodes, i, k) != 0
    ensures AddrOf(blocks, inodes, i, k) != AddrOf(blocks, inodes, i', k')
    ensures l.datastart <= AddrOf(blocks, inodes, i, k) < l.size
  {
    assert !Dead(0, 0, i, k) && !Dead(0, 0, i', k');
  }

  // The free map marks exactly the metadata and the reachable blocks.
  lemma MapIsExact(l: Superblock, blocks: Blocks, inodes: Inodes, owner: Owners, b: nat)
    requires Sound(l, blocks, inodes, owner, 0, 0) && Marked(l, blocks, owner, 0) && b < l.size
    ensures Used(l, blocks, b) <==>
      b < l.datastart || exists i, k :: i in inodes && 0 <= k <= MAXFILE && AddrOf(blocks, inodes, i, k) == b
  {
    if b in owner {
      assert AddrOf(blocks, inodes, owner[b].ino, owner[b].k) == b;
    }
  }

  // ---- writing a block that belongs to no one

  // Slots only look at blocks that are some inode's indirect block.
  lemma AddrFrame(blocks: Blocks, inodes: Inodes, w: nat, blk: RawBlock, i: nat, k: nat)
    requires i in inodes && inodes[i].addrs[NDIRECT] != w
    ensures AddrOf(blocks[w := blk], inodes, i, k) == AddrOf(blocks, inodes, i, k)
  {
  }

  lemma NotIndirect(l: Superblock, blocks: Blocks, inodes: Inodes, owner: Owners, ino: nat, done: nat, w: nat, i: nat)
    requires Shaped(l, blocks, inodes) && Claimed(blocks, inodes, owner, ino, done) && done <= MAXFILE
    requires w != 0 && w !in owner && i in inodes
    ensures inodes[i].addrs[NDIRECT] != w
  {
    assert AddrOf(blocks, inodes, i, MAXFILE) == inodes[i].addrs[NDIRECT] && !Dead(ino, done, i, MAXFILE);
  }

  lemma AddrsFrame(l: Superblock, blocks: Blocks, inodes: Inodes, owner: Owners, ino: nat, done: nat, w: nat,
                   blk: RawBlock)
    requires Shaped(l, blocks, inodes) && Claimed(blocks, inodes, owner, ino, done) && done <= MAXFILE && w != 0
      && w !in owner
    ensures forall i, k :: AddrOf(blocks[w := blk], inodes, i, k) == AddrOf(blocks, inodes, i, k)
  {
    forall i, k ensures AddrOf(blocks[w := blk], inodes, i, k) == AddrOf(blocks, inodes, i, k) {
      if i in inodes {
        NotIndirect(l, blocks, inodes, owner, ino, done, w, i);
        AddrFrame(blocks, inodes, w, blk, i, k);
      }
    }
  }

  lemma HoldsFrame(blocks: Blocks, blocks': Blocks, inodes: Inodes, inodes': Inodes, i: nat, s: seq<Byte>)
    requires Holds(blocks, inodes, i, s)
    requires forall k :: 0 <= k < MAXFILE && AddrOf(blocks, inodes, i, k) != 0 ==>
      var a := AddrOf(blocks, inodes, i, k);
      AddrOf(blocks', inodes', i, k) == a && (a in blocks ==> a in blocks' && blocks'[a] == blocks[a])
    ensures Holds(blocks', inodes', i, s)
  {
    forall p | 0 <= p < |s| ensures ByteIs(blocks', AddrOf(blocks', inodes', i, p / BSIZE), p % BSIZE, s[p]) {
      assert ByteIs(blocks, AddrOf(blocks, inodes, i, p / BSIZE), p % BSIZE, s[p]);
    }
  }

  lemma WriteElsewhere(l: Superblock, blocks: Blocks, inodes: Inodes, owner: Owners, ino: nat, done: nat, w: nat,
                       blk: RawBlock)
    requires Sound(l, blocks, inodes, owner, ino, done) && done <= MAXFILE && w != 0 && w !in owner
    ensures Sound(l, blocks[w := blk], inodes, owner, ino, done)
    ensures forall i, k :: AddrOf(blocks[w := blk], inodes, i, k) == AddrOf(blocks, inodes, i, k)
  {
    hide AddrOf;
    AddrsFrame(l, blocks, inodes, owner, ino, done, w, blk);
  }

  lemma FilesElsewhere(l: Superblock, blocks: Blocks, inodes: Inodes, owner: Owners, ino: nat, done: nat, files: Files,
                       w: nat, blk: RawBlock)
    requires Sound(l, blocks, inodes, owner, ino, done) && done <= MAXFILE && w != 0 && w !in owner
    requires HoldAll(blocks, inodes, files) && (done > 0 && ino in inodes ==> files[ino] == [])
    ensures HoldAll(blocks[w := blk], inodes, files)
  {
    hide AddrOf, Holds;
    AddrsFrame(l, blocks, inodes, owner, ino, done, w, blk);
    forall i | i in inodes ensures Holds(blocks[w := blk], inodes, i, files[i]) {
      if i == ino && done > 0 {
        NothingHeld(blocks[w := blk], inodes, i);
      } else {
        assert forall k :: 0 <= k < MAXFILE && AddrOf(blocks, inodes, i, k) != 0 ==> !Dead(ino, done, i, k);
        HoldsFrame(blocks, blocks[w := blk], inodes, inodes, i, files[i]);
      }
    }
  }

  lemma NothingHeld(blocks: Blocks, inodes: Inodes, i: nat)
    ensures Holds(blocks, inodes, i, [])
  {
  }

  // ---- the free map

  lemma MapBlock(l: Superblock, blocks: Blocks, inodes: Inodes, b: nat)
    requires WellLaidOut(l) && Shaped(l, blocks, inodes) && b < l.size
    ensures var w := b / BPB + l.bmapstart; 0 < w < l.datastart && w in blocks
  {
  }

  // Setting the bit of block b, or clearing it, changes what the map says of b only.
  lemma UsedAfter(l: Superblock, blocks: Blocks, b: nat, c: nat)
    requires b / BPB + l.bmapstart in blocks
    ensures var w := b / BPB + l.bmapstart;
      && Used(l, blocks[w := SetBit(blocks[w], b % BPB)], c) == (b == c || Used(l, blocks, c))
      && Used(l, blocks[w := ClearBit(blocks[w], b % BPB)], c) == (b != c && Used(l, blocks, c))
  {
    hide BitAt, SetBit, ClearBit;
    if b / BPB == c / BPB {
      BitAfter(blocks[b / BPB + l.bmapstart], b % BPB, c % BPB);
    }
  }

  lemma MarkOne(l: Superblock, blocks: Blocks, owner: Owners, b: nat)
    requires Marked(l, blocks, owner, 0) && b < l.size && !Used(l, blocks, b) && b / BPB + l.bmapstart in blocks
      && 0 < l.datastart
    ensures b !in owner && l.datastart <= b
    ensures var w := b / BPB + l.bmapstart; Marked(l, blocks[w := SetBit(blocks[w], b % BPB)], owner, b)
  {
    hide Used, SetBit, ClearBit;
    var w := b / BPB + l.bmapstart;
    var blocks': Blocks := blocks[w := SetBit(blocks[w], b % BPB)];
    forall c: nat | c < l.size ensures Used(l, blocks', c) == (b == c || Used(l, blocks, c)) {
      UsedAfter(l, blocks, b, c);
    }
  }

  lemma UnmarkOne(l: Superblock, blocks: Blocks, owner: Owners, b: nat)
    requires Marked(l, blocks, owner, 0) && b in owner && l.datastart <= b && b / BPB + l.bmapstart in blocks
      && 0 < l.datastart
    ensures var w := b / BPB + l.bmapstart; Marked(l, blocks[w := ClearBit(blocks[w], b % BPB)], owner - {b}, 0)
  {
    hide Used, SetBit, ClearBit;
    var w := b / BPB + l.bmapstart;
    var blocks': Blocks := blocks[w := ClearBit(blocks[w], b % BPB)];
    forall c: nat | c < l.size ensures Used(l, blocks', c) == (b != c && Used(l, blocks, c)) {
      UsedAfter(l, blocks, b, c);
    }
  }

  lemma MarkedFrame(l: Superblock, blocks: Blocks, owner: Owners, spare: nat, w: nat, blk: RawBlock)
    requires WellLaidOut(l) && Marked(l, blocks, owner, spare) && l.datastart <= w
    ensures Marked(l, blocks[w := blk], owner, spare)
  {
    var blocks': Blocks := blocks[w := blk];
    forall b: nat | b < l.size ensures Used(l, blocks', b) == Used(l, blocks, b) {
      assert b / BPB <= l.size / BPB;
    }
  }

  // ---- giving a block to a slot

  ghost predicate SlotSet(blocks: Blocks, inodes: Inodes, blocks': Blocks, inodes': Inodes, s: Slot, a: nat) {
    forall i, k :: AddrOf(blocks', inodes', i, k) == if Slot(i, k) == s then a else AddrOf(blocks, inodes, i, k)
  }

  lemma Adopt(l: Superblock, blocks: Blocks, inodes: Inodes, blocks': Blocks, inodes': Inodes, owner: Owners, s: Slot,
              a: nat)
    requires Sound(l, blocks, inodes, owner, 0, 0) && Shaped(l, blocks', inodes') && inodes'.Keys == inodes.Keys
    requires SlotSet(blocks, inodes, blocks', inodes', s, a) && s.ino in inodes && s.k <= MAXFILE
    requires AddrOf(blocks, inodes, s.ino, s.k) == 0 && a !in owner && l.datastart <= a < l.size
    ensures Sound(l, blocks', inodes', owner[a := s], 0, 0)
  {
    hide AddrOf;
  }

  lemma AdoptMarked(l: Superblock, blocks: Blocks, owner: Owners, s: Slot, a: nat)
    requires Marked(l, blocks, owner, a) && 0 < l.datastart
    ensures Marked(l, blocks, owner[a := s], 0)
  {
    hide Used;
  }

  lemma SetDirect(blocks: Blocks, inodes: Inodes, ino: nat, bn: nat, a: nat)
    requires ino in inodes && bn < NDIRECT
    ensures SlotSet(blocks, inodes, blocks, inodes[ino := inodes[ino].(addrs := inodes[ino].addrs[bn := a])],
      Slot(ino, bn), a)
  {
  }

  lemma SetIndirect(blocks: Blocks, inodes: Inodes, ino: nat, a: nat)
    requires ino in inodes && inodes[ino].addrs[NDIRECT] == 0 && a in blocks && blocks[a] == ZERO
    ensures SlotSet(blocks, inodes, blocks, inodes[ino := inodes[ino].(addrs := inodes[ino].addrs[NDIRECT := a])],
      Slot(ino, MAXFILE), a)
  {
    forall j | 0 <= j < NINDIRECT ensures U32At(blocks[a], j) == 0 {
      U32Zero(j);
    }
  }

  // Two inodes never have the same indirect block.
  lemma OneIndirect(blocks: Blocks, inodes: Inodes, owner: Owners, i: nat, i': nat)
    requires Claimed(blocks, inodes, owner, 0, 0) && i in inodes && i' in inodes && i != i'
      && inodes[i].addrs[NDIRECT] != 0
    ensures inodes[i].addrs[NDIRECT] != inodes[i'].addrs[NDIRECT]
  {
    assert AddrOf(blocks, inodes, i, MAXFILE) == inodes[i].addrs[NDIRECT] && !Dead(0, 0, i, MAXFILE);
    assert AddrOf(blocks, inodes, i', MAXFILE) == inodes[i'].addrs[NDIRECT] && !Dead(0, 0, i', MAXFILE);
  }

  lemma SetEntry(l: Superblock, blocks: Blocks, inodes: Inodes, owner: Owners, ino: nat, bn: nat, a: nat)
    requires Sound(l, blocks, inodes, owner, 0, 0) && ino in inodes && NDIRECT <= bn < MAXFILE && a < UINT
    requires inodes[ino].addrs[NDIRECT] != 0
    ensures var ind := inodes[ino].addrs[NDIRECT];
      ind in blocks && SlotSet(blocks, inodes, blocks[ind := PutU32(blocks[ind], bn - NDIRECT, a)], inodes,
        Slot(ino, bn), a)
  {
    hide U32At, PutU32, Claimed, Grounded;
    var ind := inodes[ino].addrs[NDIRECT];
    var blocks' := blocks[ind := PutU32(blocks[ind], bn - NDIRECT, a)];
    forall i: nat, k: nat ensures AddrOf(blocks', inodes, i, k) == if Slot(i, k) == Slot(ino, bn) then a
      else AddrOf(blocks, inodes, i, k)
    {
      if i in inodes && i != ino {
        OneIndirect(blocks, inodes, owner, ino, i);
      } else if i == ino && NDIRECT <= k < MAXFILE {
        U32RoundTrip(blocks[ind], bn - NDIRECT, a, k - NDIRECT);
      }
    }
  }

  // ---- file bytes

  ghost function Splice(s: seq<Byte>, off: nat, data: seq<Byte>): seq<Byte>
    requires off <= |s|
  {
    s[..off] + data + if off + |data| < |s| then s[off + |data|..] else []
  }

  // Bytes o .. o + |data| of a block replaced.
  function Patch(b: RawBlock, o: nat, data: seq<Byte>): (r: RawBlock)
    requires o + |data| <= BSIZE
  {
    b[..o] + data + b[o + |data|..]
  }

  lemma PatchKeepsSound(l: Superblock, blocks: Blocks, inodes: Inodes, owner: Owners, ino: nat, bn: nat, blk: RawBlock)
    requires Sound(l, blocks, inodes, owner, 0, 0) && ino in inodes && bn < MAXFILE
      && AddrOf(blocks, inodes, ino, bn) != 0
    ensures var a := AddrOf(blocks, inodes, ino, bn);
      && l.datastart <= a < l.size && a in owner && owner[a] == Slot(ino, bn)
      && Sound(l, blocks[a := blk], inodes, owner, 0, 0)
      && forall i, k :: AddrOf(blocks[a := blk], inodes, i, k) == AddrOf(blocks, inodes, i, k)
  {
    var a := AddrOf(blocks, inodes, ino, bn);
    assert !Dead(0, 0, ino, bn);
    forall i, k ensures AddrOf(blocks[a := blk], inodes, i, k) == AddrOf(blocks, inodes, i, k) {
      if i in inodes {
        assert AddrOf(blocks, inodes, i, MAXFILE) == inodes[i].addrs[NDIRECT] && !Dead(0, 0, i, MAXFILE);
        AddrFrame(blocks, inodes, a, blk, i, k);
      }
    }
  }

  // The other files do not see the write.
  lemma PatchElsewhere(l: Superblock, blocks: Blocks, inodes: Inodes, owner: Owners, ino: nat, bn: nat, blk: RawBlock,
                       i: nat, s: seq<Byte>)
    requires Sound(l, blocks, inodes, owner, 0, 0) && ino in inodes && bn < MAXFILE
      && AddrOf(blocks, inodes, ino, bn) != 0
    requires i in inodes && i != ino && Holds(blocks, inodes, i, s)
    ensures Holds(blocks[AddrOf(blocks, inodes, ino, bn) := blk], inodes, i, s)
  {
    hide AddrOf;
    var a := AddrOf(blocks, inodes, ino, bn);
    PatchKeepsSound(l, blocks, inodes, owner, ino, bn, blk);
    assert forall k :: 0 <= k < MAXFILE && AddrOf(blocks, inodes, i, k) != 0 ==> !Dead(0, 0, i, k);
    HoldsFrame(blocks, blocks[a := blk], inodes, inodes, i, s);
  }

  // In the written file, byte p comes from the data or from before.
  lemma PatchByte(l: Superblock, blocks: Blocks, inodes: Inodes, owner: Owners, ino: nat, bn: nat, o: nat,
                  data: seq<Byte>, s: seq<Byte>, p: nat)
    requires Sound(l, blocks, inodes, owner, 0, 0) && ino in inodes && bn < MAXFILE
      && AddrOf(blocks, inodes, ino, bn) != 0
    requires AddrOf(blocks, inodes, ino, bn) in blocks
    requires Holds(blocks, inodes, ino, s) && o + |data| <= BSIZE && bn * BSIZE + o <= |s|
    requires p < |Splice(s, bn * BSIZE + o, data)|
    ensures var a := AddrOf(blocks, inodes, ino, bn);
      ByteIs(blocks[a := Patch(blocks[a], o, data)], AddrOf(blocks, inodes, ino, p / BSIZE), p % BSIZE,
        Splice(s, bn * BSIZE + o, data)[p])
  {
    hide AddrOf, Claimed, Grounded, Shaped;
    var a, off := AddrOf(blocks, inodes, ino, bn), bn * BSIZE + o;
    if off <= p < off + |data| {
      assert p / BSIZE == bn && p % BSIZE == o + (p - off);
    } else {
      assert Splice(s, off, data)[p] == s[p];
      assert ByteIs(blocks, AddrOf(blocks, inodes, ino, p / BSIZE), p % BSIZE, s[p]);
      if p / BSIZE != bn {
        Distinct(l, blocks, inodes, owner, ino, bn, p / BSIZE);
      }
    }
  }

  lemma Distinct(l: Superblock, blocks: Blocks, inodes: Inodes, owner: Owners, i: nat, k: nat, k': nat)
    requires Sound(l, blocks, inodes, owner, 0, 0) && i in inodes && k < MAXFILE && k != k'
      && AddrOf(blocks, inodes, i, k) != 0
    ensures AddrOf(blocks, inodes, i, k) != AddrOf(blocks, inodes, i, k')
  {
    assert !Dead(0, 0, i, k) && !Dead(0, 0, i, k');
  }

  lemma PatchHolds(l: Superblock, blocks: Blocks, inodes: Inodes, owner: Owners, ino: nat, bn: nat, o: nat,
                   data: seq<Byte>, s: seq<Byte>)
    requires Sound(l, blocks, inodes, owner, 0, 0) && ino in inodes && bn < MAXFILE
      && AddrOf(blocks, inodes, ino, bn) != 0
    requires AddrOf(blocks, inodes, ino, bn) in blocks
    requires Holds(blocks, inodes, ino, s) && o + |data| <= BSIZE && bn * BSIZE + o <= |s|
    ensures var a := AddrOf(blocks, inodes, ino, bn);
      Holds(blocks[a := Patch(blocks[a], o, data)], inodes, ino, Splice(s, bn * BSIZE + o, data))
  {
    hide AddrOf, Claimed, Grounded, Shaped;
    var a := AddrOf(blocks, inodes, ino, bn);
    var blk, s' := Patch(blocks[a], o, data), Splice(s, bn * BSIZE + o, data);
    PatchKeepsSound(l, blocks, inodes, owner, ino, bn, blk);
    forall p | 0 <= p < |s'| ensures ByteIs(blocks[a := blk], AddrOf(blocks[a := blk], inodes, ino, p / BSIZE),
      p % BSIZE, s'[p])
    {
      PatchByte(l, blocks, inodes, owner, ino, bn, o, data, s, p);
    }
  }

  // ---- taking a block from a slot

  lemma FreedSlot(l: Superblock, blocks: Blocks, inodes: Inodes, owner: Owners, ino: nat, done: nat)
    requires Sound(l, blocks, inodes, owner, ino, done) && ino in inodes && done <= MAXFILE
    ensures var a := AddrOf(blocks, inodes, ino, done);
      if a == 0 then Sound(l, blocks, inodes, owner, ino, done + 1)
      else a in owner && l.datastart <= a < l.size && Sound(l, blocks, inodes, owner - {a}, ino, done + 1)
  {
    hide AddrOf;
    assert !Dead(ino, done, ino, done);
  }

  // An inode all of whose slots are empty owns nothing.
  lemma Emptied(l: Superblock, blocks: Blocks, inodes: Inodes, inodes': Inodes, owner: Owners, ino: nat)
    requires Sound(l, blocks, inodes, owner, ino, MAXFILE + 1) && ino in inodes && inodes'.Keys == inodes.Keys
    requires forall i :: i in inodes && i != ino ==> inodes'[i] == inodes[i]
    requires forall k :: 0 <= k <= NDIRECT ==> inodes'[ino].addrs[k] == 0
    ensures Sound(l, blocks, inodes', owner, ino, 0)
  {
    assert forall i, k :: i != ino ==> AddrOf(blocks, inodes', i, k) == AddrOf(blocks, inodes, i, k);
    assert forall k: nat :: k <= MAXFILE ==> AddrOf(blocks, inodes', ino, k) == 0;
    assert forall a :: a in owner ==> Dead(ino, MAXFILE + 1, ino, owner[a].k);
  }
}
