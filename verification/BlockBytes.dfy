/**
 The bytes of a disk block as kernel/fs.c looks at them: single bits of the
 free map, and the little-endian 32-bit entries of an indirect block.
 */
module BlockBytes {
  import opened Common

  const BSIZE: nat := 1024
  const BPB: nat := 8192           // bits in a block
  const NINDIRECT: nat := 256      // block numbers in a block

  type RawBlock = s: seq<Byte> | |s| == BSIZE witness seq(BSIZE, _ => 0)

  const ZERO: RawBlock := seq(BSIZE, _ => 0)

  // ---- bits

  // x & (1 << k)
  predicate Has(x: nat, k: nat) {
    if k == 0 then x % 2 == 1 else Has(x / 2, k - 1)
  }

  // x | (1 << k)
  function Or(x: nat, k: nat): (r: nat)
    ensures Has(r, k)
  {
    if k == 0 then x / 2 * 2 + 1 else Or(x / 2, k - 1) * 2 + x % 2
  }

  // x & ~(1 << k)
  function AndNot(x: nat, k: nat): (r: nat)
    ensures !Has(r, k)
  {
    if k == 0 then x / 2 * 2 else AndNot(x / 2, k - 1) * 2 + x % 2
  }

  function Pow2(n: nat): nat {
    if n == 0 then 1 else 2 * Pow2(n - 1)
  }

  lemma Halves(y: nat, r: nat)
    requires r < 2
    ensures (y * 2 + r) / 2 == y && (y * 2 + r) % 2 == r
  {
  }

  // Setting or clearing one of n bits leaves an n-bit number.
  lemma {:induction false} StaysInRange(x: nat, k: nat, n: nat)
    requires k < n && x < Pow2(n)
    ensures Or(x, k) < Pow2(n) && AndNot(x, k) < Pow2(n)
  {
    if k > 0 {
      StaysInRange(x / 2, k - 1, n - 1);
    }
  }

  lemma OtherBits(x: nat, k: nat, j: nat)
    requires k != j
    ensures Has(Or(x, k), j) == Has(x, j) && Has(AndNot(x, k), j) == Has(x, j)
  {
    OtherBitsSet(x, k, j);
    OtherBitsCleared(x, k, j);
  }

  lemma {:induction false} OtherBitsSet(x: nat, k: nat, j: nat)
    requires k != j
    ensures Has(Or(x, k), j) == Has(x, j)
  {
    if k > 0 && j > 0 {
      OtherBitsSet(x / 2, k - 1, j - 1);
      Halves(Or(x / 2, k - 1), x % 2);
    }
  }

  lemma {:induction false} OtherBitsCleared(x: nat, k: nat, j: nat)
    requires k != j
    ensures Has(AndNot(x, k), j) == Has(x, j)
  {
    if k > 0 && j > 0 {
      OtherBitsCleared(x / 2, k - 1, j - 1);
      Halves(AndNot(x / 2, k - 1), x % 2);
    }
  }

  lemma ByteRange(x: Byte, k: nat)
    requires k < 8
    ensures Or(x, k) < 256 && AndNot(x, k) < 256
  {
    assert Pow2(2) == 4 && Pow2(4) == 16 && Pow2(6) == 64 && Pow2(8) == 256;
    StaysInRange(x, k, 8);
  }

  predicate BitAt(b: RawBlock, i: nat)
    requires i < BPB
  {
    Has(b[i / 8], i % 8)
  }

  function SetBit(b: RawBlock, i: nat): RawBlock
    requires i < BPB
  {
    ByteRange(b[i / 8], i % 8);
    b[i / 8 := Or(b[i / 8], i % 8)]
  }

  function ClearBit(b: RawBlock, i: nat): RawBlock
    requires i < BPB
  {
    ByteRange(b[i / 8], i % 8);
    b[i / 8 := AndNot(b[i / 8], i % 8)]
  }

  lemma BitAfter(b: RawBlock, i: nat, j: nat)
    requires i < BPB && j < BPB
    ensures BitAt(SetBit(b, i), j) == (i == j || BitAt(b, j))
    ensures BitAt(ClearBit(b, i), j) == (i != j && BitAt(b, j))
  {
    hide Has, Or, AndNot;
    if i / 8 == j / 8 && i != j {
      OtherBits(b[i / 8], i % 8, j % 8);
    }
  }

  // ---- words

  function U32At(b: RawBlock, j: nat): (v: nat)
    requires j < NINDIRECT
    ensures v < UINT
  {
    var b0: int, b1: int, b2: int, b3: int := b[4 * j], b[4 * j + 1], b[4 * j + 2], b[4 * j + 3];
    b0 + 0x100 * b1 + 0x1_0000 * b2 + 0x100_0000 * b3
  }

  function PutU32(b: RawBlock, j: nat, v: nat): RawBlock
    requires j < NINDIRECT && v < UINT
  {
    b[4 * j := v % 0x100][4 * j + 1 := v / 0x100 % 0x100]
     [4 * j + 2 := v / 0x1_0000 % 0x100][4 * j + 3 := v / 0x100_0000]
  }

  lemma U32RoundTrip(b: RawBlock, j: nat, v: nat, i: nat)
    requires i < NINDIRECT && j < NINDIRECT && v < UINT
    ensures U32At(PutU32(b, j, v), i) == if i == j then v else U32At(b, i)
  {
    var r := PutU32(b, j, v);
    if i == j {
      BytesOf(v);
      assert r[4 * j] == v % 0x100 && r[4 * j + 1] == v / 0x100 % 0x100 && r[4 * j + 2] == v / 0x1_0000 % 0x100
        && r[4 * j + 3] == v / 0x100_0000;
    } else {
      assert r[4 * i] == b[4 * i] && r[4 * i + 1] == b[4 * i + 1] && r[4 * i + 2] == b[4 * i + 2]
        && r[4 * i + 3] == b[4 * i + 3];
    }
  }

  lemma BytesOf(v: nat)
    ensures v ==
      v % 0x100 + 0x100 * (v / 0x100 % 0x100) + 0x1_0000 * (v / 0x1_0000 % 0x100) + 0x100_0000 * (v / 0x100_0000)
  {
    assert v / 0x1_0000 == v / 0x100 / 0x100 && v / 0x100_0000 == v / 0x1_0000 / 0x100;
  }

  lemma U32Zero(j: nat)
    requires j < NINDIRECT
    ensures U32At(ZERO, j) == 0
  {
  }
}
