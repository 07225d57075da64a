/** The mapped file of src/fifo/shmem.cpp, byte by byte. A byte holds either raw data or one
    of the four parts of a stored 32-bit integer, so that an integer can only be read back
    where all four parts of the same integer are still in place. Pointers are byte offsets
    from pHdr. */
module Memory {

  newtype Byte = b: int | 0 <= b < 256

  datatype Cell = Raw(b: Byte) | Part(w: int, k: int)

  /** A 32-bit int. Every integer that is stored must be one. */
  predicate IsInt(w: int) {
    -0x8000_0000 <= w < 0x8000_0000
  }

  /** The integer w is stored at address a. */
  predicate Holds(m: seq<Cell>, a: int, w: int) {
    0 <= a <= |m| - 4 && forall i :: a <= i < a + 4 ==> m[i] == Part(w, i - a)
  }

  /** m' differs from m at most in the link words of the given nodes (offsets 8 to 16) and in
      the words at the given addresses. */
  ghost predicate SameOutside(m: seq<Cell>, m': seq<Cell>, nodes: set<int>, words: set<int>) {
    && |m| == |m'|
    && forall i :: 0 <= i < |m|
                   && (forall n | n in nodes :: !(n + 8 <= i < n + 16))
                   && (forall x | x in words :: !(x <= i < x + 4))
                   ==> m[i] == m'[i]
  }

  lemma SameOutsideTransitive(m0: seq<Cell>, m1: seq<Cell>, m2: seq<Cell>,
                              n1: set<int>, w1: set<int>, n2: set<int>, w2: set<int>)
    requires SameOutside(m0, m1, n1, w1) && SameOutside(m1, m2, n2, w2)
    ensures SameOutside(m0, m2, n1 + n2, w1 + w2)
  {
    forall i | 0 <= i < |m0|
               && (forall n | n in n1 + n2 :: !(n + 8 <= i < n + 16))
               && (forall x | x in w1 + w2 :: !(x <= i < x + 4))
      ensures m0[i] == m2[i]
    {
      assert forall n | n in n1 :: n in n1 + n2;
      assert forall n | n in n2 :: n in n1 + n2;
      assert forall x | x in w1 :: x in w1 + w2;
      assert forall x | x in w2 :: x in w1 + w2;
      assert m0[i] == m1[i];
    }
  }

  lemma SameOutsideWeaken(m: seq<Cell>, m': seq<Cell>, n1: set<int>, w1: set<int>, n2: set<int>, w2: set<int>)
    requires SameOutside(m, m', n1, w1)
    requires n1 <= n2 && w1 <= w2
    ensures SameOutside(m, m', n2, w2)
  {
  }

  lemma HoldsKept(m: seq<Cell>, m': seq<Cell>, nodes: set<int>, words: set<int>, a: int, w: int)
    requires SameOutside(m, m', nodes, words)
    requires Holds(m, a, w)
    requires forall n | n in nodes :: n + 16 <= a || a + 4 <= n + 8
    requires forall x | x in words :: x + 4 <= a || a + 4 <= x
    ensures Holds(m', a, w)
  {
    forall i | a <= i < a + 4
      ensures m'[i] == m[i]
    {
    }
  }
}
