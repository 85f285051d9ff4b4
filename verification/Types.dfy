/** Types and constants that several parts of the system share. */
module Types {

  const UINT: nat := 0x1_0000_0000

  /** A 32-bit unsigned integer of the C code. */
  type uint = u: nat | u < UINT

  type Byte = b: nat | b < 256

  /** Blocks that one file system operation may add to the log. */
  const MAXOPBLOCKS: nat := 10

  /** Buffers of the block cache. */
  const NBUF: nat := 3 * MAXOPBLOCKS

  datatype Option<T> = None | Some(value: T)

  ghost predicate NoDup<T>(q: seq<T>) {
    forall i, j :: 0 <= i < j < |q| ==> q[i] != q[j]
  }

  lemma SubsetAtMost<T>(a: set<T>, b: set<T>)
    requires a <= b
    ensures |a| <= |b|
  {
    assert b == a + (b - a);
  }
}
