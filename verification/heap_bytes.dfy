/** How src/fifo/shmem.cpp lays the block structure out in memory: the boundary tags at both
    ends of every block, the doubly linked free list, and the words of the header. */
module HeapBytes {
  import opened Memory
  import opened HeapShape

  // Offsets in the header.
  const ROOT := 4
  const FREE_LIST_POS := 8
  const SIZE := 28
  const BARRIER := 32

  // Offsets in a block.
  const FORWARD := 4
  const NEXT := 8
  const PREV := 12

  const SIZE_LIMIT := 0x8000_0000
  const MAX_REQUEST := SIZE_LIMIT - 8    // beyond it the unsigned sum of sizes in allocate could wrap
  const SIZE_T_LIMIT := 0x1_0000_0000

  /** The forward field of block a: its payload size, negative while it is live. */
  function ForwardTag(s: Shape, a: int): int
    requires a in s.span
  {
    if a in s.free then s.span[a] - BLOCK_HEADER else -(s.span[a] - BLOCK_HEADER)
  }

  /** The backward field after block a: its span, negative while it is live. */
  function BackwardTag(s: Shape, a: int): int
    requires a in s.span
  {
    if a in s.free then s.span[a] else -s.span[a]
  }

  ghost predicate TagsOf(m: seq<Cell>, s: Shape, a: int)
    requires a in s.span
  {
    Holds(m, a + FORWARD, ForwardTag(s, a)) && Holds(m, a + s.span[a], BackwardTag(s, a))
  }

  /** The node after position i of a circular list. */
  function After(nodes: seq<int>, i: int): int
    requires 0 <= i < |nodes|
  {
    if i + 1 < |nodes| then nodes[i + 1] else nodes[0]
  }

  ghost predicate Links(m: seq<Cell>, nodes: seq<int>) {
    forall i {:trigger After(nodes, i)} :: 0 <= i < |nodes| ==>
      Holds(m, nodes[i] + NEXT, After(nodes, i)) && Holds(m, After(nodes, i) + PREV, nodes[i])
  }

  /** List nodes do not overlap. */
  ghost predicate Spaced(nodes: seq<int>) {
    forall i, j :: 0 <= i < j < |nodes| ==>
      nodes[i] + FREE_HEADER <= nodes[j] || nodes[j] + FREE_HEADER <= nodes[i]
  }

  ghost predicate HeaderWords(m: seq<Cell>, s: Shape) {
    && Holds(m, FREE_LIST_POS, s.rover)
    && Holds(m, SENTINEL + FORWARD, 0)
    && Holds(m, SIZE, s.end + 4)
    && Holds(m, BARRIER, -1)
  }

  ghost predicate Fitting(m: seq<Cell>, s: Shape) {
    s.end + 4 <= |m| && HEADER <= |m| < SIZE_LIMIT
  }

  /** The bytes m hold the structure s, except perhaps for the tags of block b. */
  ghost predicate RepresentsExcept(m: seq<Cell>, s: Shape, b: int) {
    && Fitting(m, s)
    && HeaderWords(m, s)
    && Links(m, Nodes(s.ring))
    && forall a :: a in s.span && a != b ==> TagsOf(m, s, a)
  }

  ghost predicate Represents(m: seq<Cell>, s: Shape) {
    && Fitting(m, s)
    && HeaderWords(m, s)
    && Links(m, Nodes(s.ring))
    && forall a :: a in s.span ==> TagsOf(m, s, a)
  }

  /** A heap file: its bytes, and the block structure they hold. */
  datatype File = Unmapped | Mapped(m: seq<Cell>, s: Shape)

  type HeapFile = f: File | f.Mapped? ==> WellFormed(f.s) && Represents(f.m, f.s) ghost witness Unmapped

  lemma FreeBlocksSpaced(s: Laid)
    ensures Spaced(Nodes(s.ring))
  {
    var nodes := Nodes(s.ring);
    forall i, j | 0 <= i < j < |nodes|
      ensures nodes[i] + FREE_HEADER <= nodes[j] || nodes[j] + FREE_HEADER <= nodes[i]
    {
      assert nodes[j] == s.ring[j - 1] && s.ring[j - 1] in s.ring;
      if i > 0 {
        assert nodes[i] == s.ring[i - 1] && s.ring[i - 1] in s.ring;
      }
    }
  }

  /** Links that no changed word meets are kept. */
  lemma LinkKept(m: seq<Cell>, m': seq<Cell>, words: set<int>, x: int, y: int)
    requires SameOutside(m, m', {}, words)
    requires Holds(m, x + NEXT, y) && Holds(m, y + PREV, x)
    requires forall w | w in words :: w + 4 <= x + NEXT || x + NEXT + 4 <= w
    requires forall w | w in words :: w + 4 <= y + PREV || y + PREV + 4 <= w
    ensures Holds(m', x + NEXT, y) && Holds(m', y + PREV, x)
  {
    HoldsKept(m, m', {}, words, x + NEXT, y);
    HoldsKept(m, m', {}, words, y + PREV, x);
  }

  /** unlink: take node k out of the list. */
  lemma Unlinked(m: seq<Cell>, m': seq<Cell>, nodes: seq<int>, k: nat)
    requires Links(m, nodes) && Spaced(nodes) && 1 <= k < |nodes|
    requires SameOutside(m, m', {}, {nodes[k - 1] + NEXT, After(nodes, k) + PREV})
    requires Holds(m', nodes[k - 1] + NEXT, After(nodes, k)) && Holds(m', After(nodes, k) + PREV, nodes[k - 1])
    ensures Links(m', nodes[..k] + nodes[k + 1..])
  {
    var rest := nodes[..k] + nodes[k + 1..];
    var words := {nodes[k - 1] + NEXT, After(nodes, k) + PREV};
    forall i | 0 <= i < |rest|
      ensures Holds(m', rest[i] + NEXT, After(rest, i)) && Holds(m', After(rest, i) + PREV, rest[i])
    {
      if i != k - 1 {
        var j := if i < k then i else i + 1;
        assert rest[i] == nodes[j] && After(rest, i) == After(nodes, j);
        LinkKept(m, m', words, nodes[j], After(nodes, j));
      }
    }
  }

  /** link_after: put b behind the first node. */
  lemma Linked(m: seq<Cell>, m': seq<Cell>, nodes: seq<int>, b: int)
    requires Links(m, nodes) && nodes != [] && Spaced([nodes[0], b] + nodes[1..])
    requires SameOutside(m, m', {}, {b + NEXT, b + PREV, nodes[0] + NEXT, After(nodes, 0) + PREV})
    requires Holds(m', b + NEXT, After(nodes, 0)) && Holds(m', After(nodes, 0) + PREV, b)
    requires Holds(m', nodes[0] + NEXT, b) && Holds(m', b + PREV, nodes[0])
    ensures Links(m', [nodes[0], b] + nodes[1..])
  {
    var longer := [nodes[0], b] + nodes[1..];
    forall i | 0 <= i < |longer|
      ensures Holds(m', longer[i] + NEXT, After(longer, i)) && Holds(m', After(longer, i) + PREV, longer[i])
    {
      if i >= 2 {
        LinkedRest(m, m', nodes, b, i - 1);
      }
      LongerAfter(nodes, b, i);
    }
  }

  lemma LongerAfter(nodes: seq<int>, b: int, i: nat)
    requires nodes != [] && i <= |nodes|
    ensures var longer := [nodes[0], b] + nodes[1..];
            longer[i] == (if i == 0 then nodes[0] else if i == 1 then b else nodes[i - 1])
            && After(longer, i) == (if i == 0 then b else After(nodes, i - 1))
  {
  }

  /** The links after the insertion point. */
  lemma LinkedRest(m: seq<Cell>, m': seq<Cell>, nodes: seq<int>, b: int, k: nat)
    requires Links(m, nodes) && 1 <= k < |nodes| && Spaced([nodes[0], b] + nodes[1..])
    requires SameOutside(m, m', {}, {b + NEXT, b + PREV, nodes[0] + NEXT, After(nodes, 0) + PREV})
    ensures Holds(m', nodes[k] + NEXT, After(nodes, k)) && Holds(m', After(nodes, k) + PREV, nodes[k])
  {
    var longer := [nodes[0], b] + nodes[1..];
    var words := {b + NEXT, b + PREV, nodes[0] + NEXT, After(nodes, 0) + PREV};
    assert longer[0] == nodes[0] && longer[1] == b && longer[2] == nodes[1] && longer[k + 1] == nodes[k];
    Apart(longer, 0, k + 1);
    Apart(longer, 1, k + 1);
    Apart(longer, 0, 1);
    if k > 1 {
      Apart(longer, 2, k + 1);
    }
    if k + 1 < |nodes| {
      assert longer[k + 2] == nodes[k + 1];
      Apart(longer, 0, k + 2);
      Apart(longer, 1, k + 2);
      Apart(longer, 2, k + 2);
    }
    LinkKept(m, m', words, nodes[k], After(nodes, k));
  }

  lemma Apart(nodes: seq<int>, i: nat, j: nat)
    requires Spaced(nodes) && i < j < |nodes|
    ensures nodes[i] + FREE_HEADER <= nodes[j] || nodes[j] + FREE_HEADER <= nodes[i]
  {
  }

  /** Following the links from the roving pointer walks the rotation. */
  lemma RotationLinks(m: seq<Cell>, s: Shape, j: nat)
    requires Links(m, Nodes(s.ring)) && s.rover in Nodes(s.ring) && j < |Rotation(s)|
    ensures Holds(m, Rotation(s)[j] + NEXT, After(Rotation(s), j))
  {
    var nodes := Nodes(s.ring);
    var i := IndexOf(nodes, s.rover);
    var k := if i + j < |nodes| then i + j else i + j - |nodes|;
    assert Rotation(s)[j] == nodes[k];
    assert After(Rotation(s), j) == After(nodes, k);
  }

  lemma RotationDistinct(s: Shape, j: nat)
    requires Spaced(Nodes(s.ring)) && s.rover in Nodes(s.ring) && 0 < j < |Rotation(s)|
    ensures Rotation(s)[j] != s.rover
  {
    var nodes := Nodes(s.ring);
    var i := IndexOf(nodes, s.rover);
    var k := if i + j < |nodes| then i + j else i + j - |nodes|;
    assert Rotation(s)[j] == nodes[k] && k != i;
  }

  /** Changes inside free blocks' link words, the header and the tags of b leave the tags of
      every other block alone. */
  lemma TagsKept(m: seq<Cell>, m': seq<Cell>, s: Laid, s': Shape, b: int, nodes: set<int>, words: set<int>)
    requires SameOutside(m, m', nodes, words)
    requires forall n :: n in nodes ==> n == SENTINEL || n in s.span
    requires forall a :: a in s'.span && a != b ==>
               a in s.span && s'.span[a] == s.span[a] && (a in s'.free <==> a in s.free) && TagsOf(m, s, a)
    requires forall a, w :: a in s'.span && a != b && w in words ==>
               (w + 4 <= a + FORWARD || a + NEXT <= w) && (w + 4 <= a + s'.span[a] || a + s'.span[a] + 4 <= w)
    ensures forall a :: a in s'.span && a != b ==> TagsOf(m', s', a)
  {
    forall a | a in s'.span && a != b
      ensures TagsOf(m', s', a)
    {
      assert TagsOf(m, s, a);
      HoldsKept(m, m', nodes, words, a + FORWARD, ForwardTag(s, a));
      HoldsKept(m, m', nodes, words, a + s.span[a], BackwardTag(s, a));
    }
  }

  ghost function Payload(m: seq<Cell>, s: Shape, b: int): seq<Cell>
    requires b in s.span && 0 <= b && BLOCK_HEADER <= s.span[b] && b + s.span[b] <= |m|
  {
    m[b + BLOCK_HEADER..b + s.span[b]]
  }

  /** The payload bytes of the given blocks and the root pointer are the same before and after. */
  ghost predicate PayloadsKept(m: seq<Cell>, m': seq<Cell>, s: Shape, blocks: set<int>) {
    && |m| == |m'|
    && (forall a, i :: a in blocks && a in s.span && a + BLOCK_HEADER <= i < a + s.span[a] && 0 <= i < |m| ==>
        m'[i] == m[i])
    && (forall i :: ROOT <= i < ROOT + 4 && i < |m| ==> m'[i] == m[i])
  }

  lemma PayloadsUntouched(m: seq<Cell>, m': seq<Cell>, s: Laid, blocks: set<int>, nodes: set<int>, words: set<int>)
    requires SameOutside(m, m', nodes, words)
    requires forall n :: n in nodes ==> n == SENTINEL || (n in s.span && n !in blocks)
    requires forall w :: w in words ==> w >= FREE_LIST_POS
    requires forall a, w :: a in blocks && a in s.span && w in words ==> w + 4 <= a + BLOCK_HEADER || a + s.span[a] <= w
    ensures PayloadsKept(m, m', s, blocks)
  {
    forall a, i | a in blocks && a in s.span && a + BLOCK_HEADER <= i < a + s.span[a] && 0 <= i < |m|
      ensures m'[i] == m[i]
    {
      forall n | n in nodes
        ensures !(n + 8 <= i < n + 16)
      {
      }
    }
  }

  /** The header words that only growing and shrinking change. */
  lemma HeaderWordsKept(m: seq<Cell>, m': seq<Cell>, nodes: set<int>, words: set<int>, size: int)
    requires SameOutside(m, m', nodes, words)
    requires forall n :: n in nodes ==> n == SENTINEL || n >= FIRST
    requires forall w :: w in words ==> w == FREE_LIST_POS || w == SIZE || w >= HEADER
    requires Holds(m, SENTINEL + FORWARD, 0) && Holds(m, BARRIER, -1)
    ensures Holds(m', SENTINEL + FORWARD, 0) && Holds(m', BARRIER, -1)
    ensures SIZE !in words && Holds(m, SIZE, size) ==> Holds(m', SIZE, size)
  {
    HoldsKept(m, m', nodes, words, SENTINEL + FORWARD, 0);
    HoldsKept(m, m', nodes, words, BARRIER, -1);
    if SIZE !in words && Holds(m, SIZE, size) {
      HoldsKept(m, m', nodes, words, SIZE, size);
    }
  }

  lemma LinksKept(m: seq<Cell>, m': seq<Cell>, nodes: seq<int>, words: set<int>)
    requires Links(m, nodes) && SameOutside(m, m', {}, words)
    requires forall n, w :: n in nodes && w in words ==> w + 4 <= n + NEXT || n + FREE_HEADER <= w
    ensures Links(m', nodes)
  {
    forall i | 0 <= i < |nodes|
      ensures Holds(m', nodes[i] + NEXT, After(nodes, i)) && Holds(m', After(nodes, i) + PREV, nodes[i])
    {
      assert nodes[i] in nodes && After(nodes, i) in nodes;
      LinkKept(m, m', words, nodes[i], After(nodes, i));
    }
  }

  lemma NodesWithout(ring: seq<int>, n: int)
    requires n in ring
    ensures var k := IndexOf(ring, n) + 1;
            k < |Nodes(ring)| && Nodes(ring)[k] == n
            && Nodes(Without(ring, n)) == Nodes(ring)[..k] + Nodes(ring)[k + 1..]
  {
    hide IndexOf;
    var i := IndexOf(ring, n);
    assert Nodes(ring)[..i + 1] == [SENTINEL] + ring[..i];
    assert Nodes(ring)[i + 2..] == ring[i + 1..];
  }

  lemma NodesInside(s: Laid)
    ensures forall n :: n in Nodes(s.ring) ==> n == SENTINEL || (n in s.span && n in s.free)
    ensures forall n :: n in Nodes(s.ring) ==> SENTINEL <= n < s.end || n == SENTINEL
  {
    assert Nodes(s.ring) == [SENTINEL] + s.ring;
  }

  /** The block before b ends where b starts; the first block follows the barrier. */
  lemma FindPrevious(s: Laid, b: int, from: int) returns (p: int)
    requires b in s.span && from in s.span && from < b
    ensures p in s.span && p + s.span[p] == b
    decreases b - from
  {
    if EndOf(s.span, from) == b {
      p := from;
    } else {
      assert EndOf(s.span, from) < b;
      p := FindPrevious(s, b, EndOf(s.span, from));
    }
  }

  /** What free reads before block b: the span of the block before it if that is free, a
      negative number otherwise. */
  lemma BackwardField(m: seq<Cell>, s: Heap, b: int) returns (w: int, p: int)
    requires Represents(m, s) && b in s.span
    ensures Holds(m, b, w)
    ensures w > 0 ==> IsPrevFree(s, b, p) && w == s.span[p]
    ensures w <= 0 ==> forall q :: !IsPrevFree(s, b, q)
  {
    if b == FIRST {
      w, p := -1, NULL;
    } else {
      assert FIRST in s.span;
      p := FindPrevious(s, b, FIRST);
      assert TagsOf(m, s, p);
      w := BackwardTag(s, p);
      forall q | IsPrevFree(s, b, q)
        ensures q == p
      {
      }
    }
  }

  /** What allocate reads of a list node: the payload size of a free block, 0 at the sentinel. */
  lemma NodeForward(m: seq<Cell>, s: Heap, n: int, size: int)
    requires Represents(m, s) && n in Nodes(s.ring) && size > 0
    ensures var w := if n in s.span then s.span[n] - BLOCK_HEADER else 0;
            Holds(m, n + FORWARD, w) && w >= 0 && (w >= size <==> Fits(s, n, size))
  {
    NodesInside(s);
    if n in s.span {
      assert TagsOf(m, s, n);
    }
  }

  /** m' differs from m only between lo and hi. */
  ghost predicate SameBeside(m: seq<Cell>, m': seq<Cell>, lo: int, hi: int) {
    |m| == |m'| && forall i :: 0 <= i < |m| && !(lo <= i < hi) ==> m'[i] == m[i]
  }

  lemma HoldsBeside(m: seq<Cell>, m': seq<Cell>, lo: int, hi: int, a: int, w: int)
    requires SameBeside(m, m', lo, hi) && Holds(m, a, w)
    requires a + 4 <= lo || hi <= a
    ensures Holds(m', a, w)
  {
  }

  /** A live payload may be written freely. */
  lemma PayloadIsClients(m: seq<Cell>, m': seq<Cell>, s: Heap, b: int)
    requires Represents(m, s) && b in Live(s)
    requires SameBeside(m, m', b + BLOCK_HEADER, b + s.span[b])
    ensures Represents(m', s)
    ensures PayloadsKept(m, m', s, Live(s) - {b})
  {
    var lo, hi := b + BLOCK_HEADER, b + s.span[b];
    HoldsBeside(m, m', lo, hi, FREE_LIST_POS, s.rover);
    HoldsBeside(m, m', lo, hi, SENTINEL + FORWARD, 0);
    HoldsBeside(m, m', lo, hi, SIZE, s.end + 4);
    HoldsBeside(m, m', lo, hi, BARRIER, -1);
    PayloadBesideTags(m, m', s, b);
    PayloadBesideLinks(m, m', s, b);
  }

  lemma PayloadBesideTags(m: seq<Cell>, m': seq<Cell>, s: Heap, b: int)
    requires forall a :: a in s.span ==> TagsOf(m, s, a)
    requires b in Live(s) && SameBeside(m, m', b + BLOCK_HEADER, b + s.span[b])
    ensures forall a :: a in s.span ==> TagsOf(m', s, a)
  {
    var lo, hi := b + BLOCK_HEADER, b + s.span[b];
    forall a | a in s.span
      ensures TagsOf(m', s, a)
    {
      assert TagsOf(m, s, a);
      HoldsBeside(m, m', lo, hi, a + FORWARD, ForwardTag(s, a));
      HoldsBeside(m, m', lo, hi, a + s.span[a], BackwardTag(s, a));
    }
  }

  lemma PayloadBesideLinks(m: seq<Cell>, m': seq<Cell>, s: Heap, b: int)
    requires Links(m, Nodes(s.ring))
    requires b in Live(s) && SameBeside(m, m', b + BLOCK_HEADER, b + s.span[b])
    ensures Links(m', Nodes(s.ring))
  {
    var lo, hi := b + BLOCK_HEADER, b + s.span[b];
    var nodes := Nodes(s.ring);
    NodesInside(s);
    forall i | 0 <= i < |nodes|
      ensures Holds(m', nodes[i] + NEXT, After(nodes, i)) && Holds(m', After(nodes, i) + PREV, nodes[i])
    {
      assert nodes[i] in nodes && After(nodes, i) in nodes;
      HoldsBeside(m, m', lo, hi, nodes[i] + NEXT, After(nodes, i));
      HoldsBeside(m, m', lo, hi, After(nodes, i) + PREV, nodes[i]);
    }
  }

  /** The two tags of a newly live block complete the structure. */
  lemma Finished(m0: seq<Cell>, m1: seq<Cell>, m2: seq<Cell>, u: Heap, b: int)
    requires RepresentsExcept(m0, u, b) && b in Live(u)
    requires SameOutside(m0, m1, {}, {b + FORWARD}) && Holds(m1, b + FORWARD, ForwardTag(u, b))
    requires SameOutside(m1, m2, {}, {b + u.span[b]}) && Holds(m2, b + u.span[b], BackwardTag(u, b))
    ensures Represents(m2, u)
    ensures PayloadsKept(m0, m2, u, Live(u))
  {
    var words := {b + FORWARD, b + u.span[b]};
    SameOutsideTransitive(m0, m1, m2, {}, {b + FORWARD}, {}, {b + u.span[b]});
    SameOutsideWeaken(m0, m2, {} + {}, {b + FORWARD} + {b + u.span[b]}, {}, words);
    HoldsKept(m1, m2, {}, {b + u.span[b]}, b + FORWARD, ForwardTag(u, b));
    HeaderWordsKept(m0, m2, {}, words, u.end + 4);
    HoldsKept(m0, m2, {}, words, FREE_LIST_POS, u.rover);
    NodesInside(u);
    LinksKept(m0, m2, Nodes(u.ring), words);
    TagsKept(m0, m2, u, u, b, {}, words);
    PayloadsUntouched(m0, m2, u, Live(u), {}, words);
  }
}
