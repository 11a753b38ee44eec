/** Types that several of the models use. */
module Common {
  const UINT: nat := 0x1_0000_0000     // past the largest unsigned int

  type Byte = x: int | 0 <= x < 256

  datatype Option<+T> = None | Some(value: T)

  lemma {:induction false} Subset<T>(a: set<T>, b: set<T>)
    requires a <= b
    ensures |a| <= |b|
    decreases |a|
  {
    if a != {} {
      var x :| x in a;
      Subset(a - {x}, b - {x});
    }
  }
}

/** Virtual memory as Sv39 lays it out. */
module Paging {
  const PGSIZE: nat := 4096
  const MAXVA: nat := 0x40_0000_0000   // 1 << (9 + 9 + 9 + 12 - 1)

  /** A page a process has to itself: one of the three-level tree, by the index prefix to it, or the trapframe. */
  datatype Node = Root | Mid(i2: nat) | Low(i21: nat) | Frame
}
