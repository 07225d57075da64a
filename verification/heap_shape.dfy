/** The block structure of the heap in src/fifo/shmem.cpp, apart from its bytes: which
    addresses start a block, how long each block is (tags included), which blocks are free,
    the order of the free list and where its roving pointer stands. The allocator's two
    operations are given as functions on this structure; the methods of SharedHeap are
    proved to carry them out on the bytes. */
module HeapShape {
  import opened Sets

  const NULL := 0
  const SENTINEL := 12        // offset of pHdr->free_list
  const FIRST := 32           // the first block starts at pHdr->barrier
  const BLOCK_HEADER := 8     // sizeof(allocation_block)
  const FREE_HEADER := 16     // sizeof(free_block)
  const HEADER := 36          // sizeof(header)

  /** end is where the next block would start: pHdr->size - sizeof(int). */
  datatype Shape = Shape(span: map<int, int>, free: set<int>, ring: seq<int>, rover: int, end: int)

  /** Where the block at a ends. */
  function EndOf(span: map<int, int>, a: int): int
    requires a in span
  {
    a + span[a]
  }

  /** Blocks tile the range from FIRST to end. */
  ghost predicate Tiled(span: map<int, int>, end: int) {
    && FIRST <= end && end % 8 == 0
    && (end == FIRST || FIRST in span)
    && (forall a :: a in span ==>
         FIRST <= a && a % 8 == 0 && FREE_HEADER <= span[a] && span[a] % 8 == 0 && a + span[a] <= end)
    && (forall a {:trigger EndOf(span, a)} :: a in span ==> EndOf(span, a) == end || EndOf(span, a) in span)
    && (forall a, b :: a in span && b in span && a < b ==> a + span[a] <= b)
  }

  /** The free list names every free block exactly once. */
  ghost predicate Ringed(free: set<int>, ring: seq<int>) {
    && (forall n :: n in ring <==> n in free)
    && (forall i, j :: 0 <= i < j < |ring| ==> ring[i] != ring[j])
  }

  /** A free block is followed by a live one: it has no free neighbour and is not the last. */
  ghost predicate Coalesced(s: Shape) {
    forall a {:trigger EndOf(s.span, a)} :: a in s.free && a in s.span ==>
      EndOf(s.span, a) in s.span && EndOf(s.span, a) !in s.free
  }

  ghost predicate WellFormed(s: Shape) {
    && Tiled(s.span, s.end)
    && s.free <= s.span.Keys
    && Ringed(s.free, s.ring)
    && s.rover in Nodes(s.ring)
    && Coalesced(s)
  }

  /** The heap as open initialises it. */
  function Initial(): Shape {
    Shape(map[], {}, [], SENTINEL, FIRST)
  }

  lemma InitialWellFormed(s: Shape)
    requires s == Initial()
    ensures WellFormed(s)
  {
  }

  type Heap = s: Shape | WellFormed(s) ghost witness Initial()

  /** Tiled and listed, but perhaps not coalesced. */
  type Laid = s: Shape | Tiled(s.span, s.end) && s.free <= s.span.Keys && Ringed(s.free, s.ring)
    ghost witness Initial()

  ghost function Live(s: Shape): set<int> {
    s.span.Keys - s.free
  }

  /** The circular list, from the sentinel on. */
  function Nodes(ring: seq<int>): seq<int> {
    [SENTINEL] + ring
  }

  function IndexOf(xs: seq<int>, x: int): (i: nat)
    requires x in xs
    ensures i < |xs| && xs[i] == x
  {
    if xs[0] == x then 0 else 1 + IndexOf(xs[1..], x)
  }

  /** The circular list, from the roving pointer on. */
  function Rotation(s: Shape): (r: seq<int>)
    requires s.rover in Nodes(s.ring)
    ensures |r| == |Nodes(s.ring)| && r[0] == s.rover
  {
    var nodes := Nodes(s.ring);
    var i := IndexOf(nodes, s.rover);
    nodes[i..] + nodes[..i]
  }

  function Without(ring: seq<int>, n: int): seq<int> {
    if n in ring then var i := IndexOf(ring, n); ring[..i] + ring[i + 1..] else ring
  }

  /** The node after n in the circular list. */
  function Successor(ring: seq<int>, n: int): int
    requires n in Nodes(ring)
  {
    var i := IndexOf(Nodes(ring), n);
    if i + 1 < |Nodes(ring)| then Nodes(ring)[i + 1] else SENTINEL
  }

  predicate Fits(s: Shape, n: int, size: int) {
    n in s.free && n in s.span && s.span[n] - BLOCK_HEADER >= size
  }

  /** Next fit: the first node of the list that fits, NULL if none does. */
  function Search(s: Shape, nodes: seq<int>, size: int): (n: int) {
    if nodes == [] then NULL
    else if Fits(s, nodes[0], size) then nodes[0]
    else Search(s, nodes[1..], size)
  }

  function Align(size: int): (r: int) {
    ((if size == 0 then 1 else size) + 7) / 8 * 8
  }

  /** Cut the tail of free block b off as a live block; the rover stays on b. */
  function Split(s: Shape, b: int, size: int): Shape
    requires b in s.span
  {
    var offs := s.span[b] - BLOCK_HEADER - size;
    s.(span := s.span[b := offs][b + offs := size + BLOCK_HEADER], rover := b)
  }

  /** Use free block b as it is; the rover moves on. */
  function Whole(s: Shape, b: int): Shape
    requires b in Nodes(s.ring)
  {
    s.(free := s.free - {b}, ring := Without(s.ring, b), rover := Successor(s.ring, b))
  }

  /** Append a live block to the heap. */
  function Grow(s: Shape, size: int): Shape {
    s.(span := s.span[s.end := size + BLOCK_HEADER], end := s.end + size + BLOCK_HEADER)
  }

  /** What allocate does for an aligned size: the new structure and the block, or NULL. */
  function Take(s: Shape, size: int, limit: int): (Shape, int)
    requires s.rover in Nodes(s.ring)
    requires forall n :: n in s.free <==> n in s.ring
  {
    var b := Search(s, Rotation(s), size);
    if b != NULL && b in s.span && b in s.free then
      if s.span[b] - BLOCK_HEADER >= size + FREE_HEADER
      then (Split(s, b, size), b + s.span[b] - BLOCK_HEADER - size)
      else (Whole(s, b), b)
    else if s.end + 4 + size + BLOCK_HEADER > limit then (s, NULL)
    else (Grow(s, size), s.end)
  }

  ghost predicate IsPrevFree(s: Shape, b: int, p: int) {
    p in s.free && p in s.span && p + s.span[p] == b
  }

  /** The first half of free: join block b to a free block before it, or list it. */
  ghost function JoinPrevious(s: Shape, b: int): (Shape, int)
    requires b in s.span
  {
    if p: int :| IsPrevFree(s, b, p) then
      (s.(span := (s.span - {b})[p := s.span[p] + s.span[b]], rover := p), p)
    else
      (s.(free := s.free + {b}, ring := [b] + s.ring, rover := b), b)
  }

  /** The second half: join free block b to a free block after it, or cut it off the end. */
  ghost function JoinNext(s: Shape, b: int): Shape
    requires b in s.span
  {
    var e := b + s.span[b];
    if e < s.end then
      if e in s.free && e in s.span then
        s.(span := (s.span - {e})[b := s.span[b] + s.span[e]], free := s.free - {e}, ring := Without(s.ring, e))
      else s
    else
      var ring := Without(s.ring, b);
      Shape(s.span - {b}, s.free - {b}, ring, Successor(ring, SENTINEL), b)
  }

  /** What free does to the block structure. */
  ghost function Release(s: Shape, b: int): Shape
    requires b in s.span
  {
    var (joined, at) := JoinPrevious(s, b);
    if at in joined.span then JoinNext(joined, at) else joined
  }

  // ----- list lemmas

  lemma {:induction false} SearchFinds(s: Shape, nodes: seq<int>, size: int)
    requires NULL !in nodes
    ensures Search(s, nodes, size) != NULL ==> Search(s, nodes, size) in nodes && Fits(s, Search(s, nodes, size), size)
    ensures Search(s, nodes, size) == NULL <==> forall n :: n in nodes ==> !Fits(s, n, size)
  {
    if nodes != [] {
      SearchFinds(s, nodes[1..], size);
      assert forall n :: n in nodes <==> n == nodes[0] || n in nodes[1..];
    }
  }

  /** Next fit skips every misfit before the node it takes. */
  lemma {:induction false} SearchAt(s: Shape, nodes: seq<int>, size: int, j: nat)
    requires j <= |nodes| && NULL !in nodes
    requires forall i :: 0 <= i < j ==> !Fits(s, nodes[i], size)
    requires j < |nodes| ==> Fits(s, nodes[j], size)
    ensures Search(s, nodes, size) == if j < |nodes| then nodes[j] else NULL
  {
    if j > 0 {
      SearchAt(s, nodes[1..], size, j - 1);
    }
  }

  lemma RotationMembers(s: Shape)
    requires s.rover in Nodes(s.ring)
    ensures forall n :: n in Rotation(s) <==> n in Nodes(s.ring)
  {
    var nodes := Nodes(s.ring);
    var i := IndexOf(nodes, s.rover);
    assert nodes == nodes[..i] + nodes[i..];
  }

  lemma WithoutMembers(free: set<int>, ring: seq<int>, n: int)
    requires Ringed(free, ring) && n in free
    ensures Ringed(free - {n}, Without(ring, n))
    ensures n !in Without(ring, n)
  {
    hide IndexOf;
    var i := IndexOf(ring, n);
    var r := Without(ring, n);
    WithoutDistinct(ring, i);
    assert forall x :: x in r <==> x in ring && x != n;
    hide Without;
  }

  /** Taking position i out of a list without repetitions. */
  lemma WithoutDistinct(ring: seq<int>, i: nat)
    requires i < |ring| && forall j, k :: 0 <= j < k < |ring| ==> ring[j] != ring[k]
    ensures var r := ring[..i] + ring[i + 1..];
            && (forall j, k :: 0 <= j < k < |r| ==> r[j] != r[k])
            && (forall x :: x in r <==> x in ring && x != ring[i])
  {
    var r := ring[..i] + ring[i + 1..];
    forall x
      ensures x in r <==> x in ring && x != ring[i]
    {
      assert ring == ring[..i] + [ring[i]] + ring[i + 1..];
    }
  }

  lemma SuccessorStays(free: set<int>, ring: seq<int>, n: int)
    requires Ringed(free, ring) && n in free && SENTINEL !in free
    ensures n in Nodes(ring)
    ensures Successor(ring, n) in Nodes(Without(ring, n))
  {
    assert n in ring;
    var k := IndexOf(ring, n);
    assert Nodes(ring)[k + 1] == n;
    var i := IndexOf(Nodes(ring), n);
    var m := Successor(ring, n);
    WithoutMembers(free, ring, n);
    if i + 1 < |Nodes(ring)| {
      assert m == ring[i] && ring[i - 1] == n;
      assert m in ring && m != n;
      assert m in Without(ring, n);
    }
    assert Nodes(Without(ring, n)) == [SENTINEL] + Without(ring, n);
  }

  // ----- the operations keep the structure well formed

  /** Cutting a block in two keeps the tiling. */
  lemma SplitTiled(span: map<int, int>, end: int, b: int, offs: int)
    requires Tiled(span, end) && b in span
    requires offs % 8 == 0 && FREE_HEADER <= offs <= span[b] - FREE_HEADER
    ensures b + offs !in span
    ensures Tiled(span[b := offs][b + offs := span[b] - offs], end)
  {
    var t := span[b := offs][b + offs := span[b] - offs];
    SplitNew(span, end, b, offs);
    SplitDisjoint(span, end, b, offs, t);
    forall x | x in t
      ensures EndOf(t, x) == end || EndOf(t, x) in t
    {
      if x == b + offs {
        assert EndOf(t, x) == EndOf(span, b);
      } else if x != b {
        assert EndOf(t, x) == EndOf(span, x);
      }
    }
  }

  lemma SplitNew(span: map<int, int>, end: int, b: int, offs: int)
    requires Tiled(span, end) && b in span && 0 < offs < span[b]
    ensures b + offs !in span
  {
  }

  lemma SplitDisjoint(span: map<int, int>, end: int, b: int, offs: int, t: map<int, int>)
    requires Tiled(span, end) && b in span && b + offs !in span
    requires offs % 8 == 0 && FREE_HEADER <= offs <= span[b] - FREE_HEADER
    requires t == span[b := offs][b + offs := span[b] - offs]
    ensures forall x, y :: x in t && y in t && x < y ==> x + t[x] <= y
    ensures forall x :: x in t ==> FIRST <= x && x % 8 == 0 && FREE_HEADER <= t[x] && t[x] % 8 == 0 && x + t[x] <= end
  {
    MultiplesOfEight(b, offs, span[b]);
  }

  lemma MultiplesOfEight(b: int, offs: int, size: int)
    requires b % 8 == 0 && offs % 8 == 0 && size % 8 == 0
    ensures (b + offs) % 8 == 0 && (size - offs) % 8 == 0
  {
  }

  /** Joining two neighbours keeps the tiling. */
  lemma MergeTiled(span: map<int, int>, end: int, a: int, e: int)
    requires Tiled(span, end) && a in span && e in span && a + span[a] == e
    ensures Tiled((span - {e})[a := span[a] + span[e]], end)
  {
    var t := (span - {e})[a := span[a] + span[e]];
    MergeDisjoint(span, end, a, e, t);
    assert a in t && FIRST in t by {
      assert FIRST in span && a != e && FIRST != e;
    }
    forall x | x in t
      ensures EndOf(t, x) == end || EndOf(t, x) in t
    {
      if x == a {
        assert EndOf(t, x) == EndOf(span, e);
      } else {
        assert EndOf(t, x) == EndOf(span, x) != e;
      }
    }
  }

  lemma AddMultiples(x: int, y: int)
    requires x % 8 == 0 && y % 8 == 0
    ensures (x + y) % 8 == 0
  {
  }

  lemma MergeDisjoint(span: map<int, int>, end: int, a: int, e: int, t: map<int, int>)
    requires Tiled(span, end) && a in span && e in span && a + span[a] == e
    requires t == (span - {e})[a := span[a] + span[e]]
    ensures forall x, y :: x in t && y in t && x < y ==> x + t[x] <= y
    ensures forall x :: x in t ==> FIRST <= x && x % 8 == 0 && FREE_HEADER <= t[x] && t[x] % 8 == 0 && x + t[x] <= end
  {
    AddMultiples(span[a], span[e]);
    forall x, y | x in t && y in t && x < y
      ensures x + t[x] <= y
    {
      if x == a {
        assert e < y;
      } else {
        assert t[x] == span[x];
      }
    }
  }

  /** Cutting the last block off keeps the tiling. */
  lemma DropLastTiled(span: map<int, int>, end: int, b: int)
    requires Tiled(span, end) && b in span && b + span[b] == end
    ensures Tiled(span - {b}, b)
  {
    var t := span - {b};
    assert b == FIRST || FIRST in t;
    forall x | x in t
      ensures x + t[x] <= b && (EndOf(t, x) == b || EndOf(t, x) in t)
    {
      assert x < b;
      assert EndOf(t, x) == EndOf(span, x);
    }
  }

  lemma SplitWellFormed(s: Heap, b: int, size: int)
    requires b in s.free
    requires size >= 8 && size % 8 == 0
    requires s.span[b] - BLOCK_HEADER >= size + FREE_HEADER
    ensures WellFormed(Split(s, b, size))
    ensures Live(Split(s, b, size)) == Live(s) + {b + s.span[b] - BLOCK_HEADER - size}
    ensures b + s.span[b] - BLOCK_HEADER - size !in s.span
  {
    var offs := s.span[b] - BLOCK_HEADER - size;
    var t := Split(s, b, size);
    SplitTiled(s.span, s.end, b, offs);
    assert t.span == s.span[b := offs][b + offs := s.span[b] - offs];
    assert t.span.Keys == s.span.Keys + {b + offs};
    assert b in s.ring;
    assert Nodes(s.ring) == [SENTINEL] + s.ring;
    forall a | a in t.free
      ensures EndOf(t.span, a) in t.span && EndOf(t.span, a) !in t.free
    {
      if a != b {
        assert EndOf(t.span, a) == EndOf(s.span, a);
      }
    }
  }

  lemma WholeWellFormed(s: Heap, b: int)
    requires b in s.free
    ensures b in Nodes(s.ring)
    ensures WellFormed(Whole(s, b))
    ensures Live(Whole(s, b)) == Live(s) + {b}
  {
    WithoutMembers(s.free, s.ring, b);
    SuccessorStays(s.free, s.ring, b);
    var t := Whole(s, b);
    forall a | a in t.free
      ensures EndOf(t.span, a) in t.span && EndOf(t.span, a) !in t.free
    {
      assert EndOf(t.span, a) == EndOf(s.span, a);
    }
  }

  lemma GrowWellFormed(s: Heap, size: int)
    requires size >= 8 && size % 8 == 0
    ensures WellFormed(Grow(s, size))
    ensures Live(Grow(s, size)) == Live(s) + {s.end}
    ensures s.end !in s.span
  {
    var t := Grow(s, size);
    GrowTiled(s.span, s.end, size + BLOCK_HEADER);
    assert t.span.Keys == s.span.Keys + {s.end};
    GrowCoalesced(s, size);
    hide Tiled, Ringed, Coalesced;
  }

  lemma GrowTiled(span: map<int, int>, end: int, size: int)
    requires Tiled(span, end) && size >= FREE_HEADER && size % 8 == 0
    ensures end !in span && Tiled(span[end := size], end + size)
  {
    var t := span[end := size];
    forall a | a in t
      ensures EndOf(t, a) == end + size || EndOf(t, a) in t
    {
      if a != end {
        assert EndOf(t, a) == EndOf(span, a);
      }
    }
  }

  lemma GrowCoalesced(s: Heap, size: int)
    requires s.end !in s.span
    ensures Coalesced(Grow(s, size))
  {
    var t := Grow(s, size);
    forall a | a in t.free
      ensures EndOf(t.span, a) in t.span && EndOf(t.span, a) !in t.free
    {
      assert EndOf(t.span, a) == EndOf(s.span, a);
    }
  }

  /** Apart from the coalescing clause, which holds everywhere but at b. */
  ghost predicate WellFormedExcept(s: Shape, b: int) {
    && Tiled(s.span, s.end)
    && s.free <= s.span.Keys
    && Ringed(s.free, s.ring)
    && s.rover in Nodes(s.ring)
    && b in s.free
    && (forall a {:trigger EndOf(s.span, a)} :: a in s.free && a != b ==>
         EndOf(s.span, a) in s.span && EndOf(s.span, a) !in s.free)
  }

  /** The structure halfway through free, with the freed block under the rover. */
  type Joined = s: Shape | WellFormedExcept(s, s.rover)
    ghost witness Shape(map[FIRST := FREE_HEADER], {FIRST}, [FIRST], FIRST, FIRST + FREE_HEADER)

  lemma JoinPreviousWellFormed(s: Heap, b: int)
    requires b in Live(s)
    ensures var (t, at) := JoinPrevious(s, b);
            WellFormedExcept(t, at) && at == t.rover && Live(t) == Live(s) - {b} && at <= b && t.end == s.end
  {
    if p: int :| IsPrevFree(s, b, p) {
      var (t, at) := JoinPrevious(s, b);
      var q: int :| IsPrevFree(s, b, q) && at == q
          && t == s.(span := (s.span - {b})[q := s.span[q] + s.span[b]], rover := q);
      JoinPreviousMerges(s, b, q, t);
    } else {
      JoinPreviousLists(s, b);
    }
  }

  lemma JoinPreviousMerges(s: Heap, b: int, q: int, t: Shape)
    requires b in Live(s) && IsPrevFree(s, b, q)
    requires t == s.(span := (s.span - {b})[q := s.span[q] + s.span[b]], rover := q)
    ensures WellFormedExcept(t, q) && Live(t) == Live(s) - {b} && q <= b
  {
    MergeTiled(s.span, s.end, q, b);
    assert t.span.Keys == s.span.Keys - {b};
    assert q in s.ring;
    assert Nodes(s.ring) == [SENTINEL] + s.ring;
    JoinPreviousCoalesced(s, b, q, t);
  }

  lemma JoinPreviousCoalesced(s: Heap, b: int, q: int, t: Shape)
    requires b in Live(s) && IsPrevFree(s, b, q)
    requires t == s.(span := (s.span - {b})[q := s.span[q] + s.span[b]], rover := q)
    ensures forall a :: a in t.free && a != q ==> EndOf(t.span, a) in t.span && EndOf(t.span, a) !in t.free
  {
    forall a | a in t.free && a != q
      ensures EndOf(t.span, a) in t.span && EndOf(t.span, a) !in t.free
    {
      assert EndOf(t.span, a) == EndOf(s.span, a);
      assert EndOf(s.span, a) != b;
    }
  }

  lemma JoinPreviousLists(s: Heap, b: int)
    requires b in Live(s)
    requires forall p :: !IsPrevFree(s, b, p)
    ensures var (t, at) := JoinPrevious(s, b);
            WellFormedExcept(t, at) && at == t.rover && Live(t) == Live(s) - {b} && at <= b && t.end == s.end
  {
    var (t, at) := JoinPrevious(s, b);
    assert t.free == s.free + {b} && t.ring == [b] + s.ring;
    assert forall n :: n in t.ring <==> n == b || n in s.ring;
    assert Nodes(t.ring) == [SENTINEL] + t.ring;
    assert Live(t) == Live(s) - {b};
    forall a | a in t.free && a != b
      ensures EndOf(t.span, a) in t.span && EndOf(t.span, a) !in t.free
    {
      assert !IsPrevFree(s, b, a);
      assert EndOf(t.span, a) == EndOf(s.span, a);
    }
  }

  lemma PrevFreeUnique(s: Heap, b: int, p: int, q: int)
    requires IsPrevFree(s, b, p) && IsPrevFree(s, b, q)
    ensures p == q
  {
  }

  lemma JoinNextWellFormed(s: Shape, b: int)
    requires WellFormedExcept(s, b) && s.rover == b
    requires forall a :: a in s.free && a != b ==> a + s.span[a] != b
    ensures WellFormed(JoinNext(s, b))
    ensures Live(JoinNext(s, b)) == Live(s)
    ensures b + s.span[b] <= s.end
    ensures b + s.span[b] == s.end ==> JoinNext(s, b).end == b
    ensures b + s.span[b] < s.end ==> JoinNext(s, b).end == s.end
  {
    var e := EndOf(s.span, b);
    var t := JoinNext(s, b);
    if e < s.end {
      if e in s.free {
        JoinNextMerges(s, b);
      } else {
        assert forall a :: a in s.free ==> EndOf(s.span, a) != e || a == b;
      }
    } else {
      DropLastWellFormed(s, b);
    }
  }

  lemma JoinNextMerges(s: Shape, b: int)
    requires WellFormedExcept(s, b) && s.rover == b
    requires forall a :: a in s.free && a != b ==> a + s.span[a] != b
    requires b + s.span[b] < s.end && b + s.span[b] in s.free
    ensures WellFormed(JoinNext(s, b))
    ensures Live(JoinNext(s, b)) == Live(s)
  {
    JoinNextCoalesced(s, b);
    JoinNextTiled(s, b);
    JoinNextListed(s, b);
  }

  lemma JoinNextTiled(s: Shape, b: int)
    requires WellFormedExcept(s, b)
    requires b + s.span[b] < s.end && b + s.span[b] in s.free
    ensures Tiled(JoinNext(s, b).span, JoinNext(s, b).end)
  {
    MergeTiled(s.span, s.end, b, b + s.span[b]);
  }

  lemma JoinNextListed(s: Shape, b: int)
    requires WellFormedExcept(s, b) && s.rover == b
    requires b + s.span[b] < s.end && b + s.span[b] in s.free
    ensures var t := JoinNext(s, b);
            Ringed(t.free, t.ring) && t.free <= t.span.Keys && t.rover in Nodes(t.ring) && Live(t) == Live(s)
  {
    var e := b + s.span[b];
    MergedList(s, b, e);
    assert e in s.span && b in s.span && b != e && s.free <= s.span.Keys;
    var n := s.span[b] + s.span[e];
    assert JoinNext(s, b) == s.(span := (s.span - {e})[b := n], free := s.free - {e}, ring := Without(s.ring, e));
    hide Tiled, Ringed, Coalesced, IndexOf, Without, Nodes, JoinNext, WellFormedExcept;
    MergedKeys(s.span, s.free, b, e, n);
  }

  lemma MergedKeys(span: map<int, int>, free: set<int>, b: int, e: int, n: int)
    requires b in span && e in free && free <= span.Keys && b != e
    ensures var t := (span - {e})[b := n]; free - {e} <= t.Keys && t.Keys - (free - {e}) == span.Keys - free
  {
    var t := (span - {e})[b := n];
    Sets.SameMembers(t.Keys, span.Keys - {e});
    Sets.SameMembers(t.Keys - (free - {e}), span.Keys - free);
  }

  lemma MergedList(s: Shape, b: int, e: int)
    requires Ringed(s.free, s.ring) && b in s.free && e in s.free && b != e
    ensures Ringed(s.free - {e}, Without(s.ring, e))
    ensures b in Nodes(Without(s.ring, e))
  {
    WithoutMembers(s.free, s.ring, e);
    assert b in Without(s.ring, e);
    assert Nodes(Without(s.ring, e)) == [SENTINEL] + Without(s.ring, e);
  }

  lemma DropLastWellFormed(s: Shape, b: int)
    requires WellFormedExcept(s, b)
    requires forall a :: a in s.free && a != b ==> a + s.span[a] != b
    requires b + s.span[b] == s.end
    ensures WellFormed(JoinNext(s, b))
    ensures Live(JoinNext(s, b)) == Live(s)
  {
    var t := JoinNext(s, b);
    DropLastTiled(s.span, s.end, b);
    WithoutMembers(s.free, s.ring, b);
    SuccessorOfSentinel(t.ring);
    assert t.span.Keys == s.span.Keys - {b};
    forall a | a in t.free
      ensures EndOf(t.span, a) in t.span && EndOf(t.span, a) !in t.free
    {
      assert EndOf(t.span, a) == EndOf(s.span, a) != b;
    }
  }

  lemma JoinNextCoalesced(s: Shape, b: int)
    requires WellFormedExcept(s, b) && s.rover == b
    requires forall a :: a in s.free && a != b ==> a + s.span[a] != b
    requires b + s.span[b] < s.end && b + s.span[b] in s.free
    ensures Coalesced(JoinNext(s, b))
  {
    var e := EndOf(s.span, b);
    var t := JoinNext(s, b);
    forall a | a in t.free && a in t.span
      ensures EndOf(t.span, a) in t.span && EndOf(t.span, a) !in t.free
    {
      if a == b {
        assert EndOf(t.span, a) == EndOf(s.span, e);
      } else {
        assert EndOf(t.span, a) == EndOf(s.span, a) != e;
      }
    }
  }

  lemma SuccessorOfSentinel(ring: seq<int>)
    ensures Successor(ring, SENTINEL) in Nodes(ring)
  {
  }

  /** Freeing any live block keeps the structure well formed and takes just that block away. */
  lemma ReleaseWellFormed(s: Heap, b: int)
    requires b in Live(s)
    ensures WellFormed(Release(s, b))
    ensures Live(Release(s, b)) == Live(s) - {b}
  {
    var (t, at) := JoinPrevious(s, b);
    JoinPreviousWellFormed(s, b);
    forall a | a in t.free && a != at
      ensures a + t.span[a] != at
    {
      assert EndOf(t.span, a) !in t.free;
    }
    JoinNextWellFormed(t, at);
  }

  /** The next search starts at the free block that the freed one has become part of; if that
      was cut off the end of the heap, at the first of the list. */
  lemma ReleaseRoves(s: Heap, b: int)
    requires b in Live(s)
    ensures var t := Release(s, b);
            if t.end == s.end then t.rover in t.free && t.rover in t.span && t.rover <= b < t.rover + t.span[t.rover]
            else t.end <= b && t.rover == Successor(t.ring, SENTINEL)
  {
    var (t, at) := JoinPrevious(s, b);
    JoinPreviousWellFormed(s, b);
    JoinsAround(s, b);
    forall a | a in t.free && a != at
      ensures a + t.span[a] != at
    {
      assert EndOf(t.span, a) !in t.free;
    }
    JoinNextWellFormed(t, at);
    hide Tiled, Coalesced, Ringed, Successor, Without;
  }

  lemma JoinsAround(s: Heap, b: int)
    requires b in Live(s)
    ensures var (t, at) := JoinPrevious(s, b); at in t.free && at in t.span && at <= b < at + t.span[at]
  {
    hide Ringed, Coalesced;
  }

  lemma ReleaseKeepsOthers(s: Heap, b: int)
    requires b in Live(s)
    ensures forall a :: a in Live(s) && a != b ==> a in Release(s, b).span && Release(s, b).span[a] == s.span[a]
  {
  }

  lemma NodesAreNotNull(s: Heap)
    ensures NULL !in Nodes(s.ring) && NULL !in Rotation(s) && SENTINEL !in s.free
    ensures forall n :: n in Nodes(s.ring) ==> n == SENTINEL || n in s.free
  {
    RotationMembers(s);
  }

  /** One new live block b: at least the size and at most 8 bytes more, its payload aligned,
      and every other live block where it was. */
  ghost predicate Allocated(s: Shape, t: Shape, b: int, size: int) {
    && b != NULL && b !in Live(s) && Live(t) == Live(s) + {b}
    && b in t.span && size <= t.span[b] - BLOCK_HEADER <= size + 8
    && (b + BLOCK_HEADER) % 8 == 0
    && (forall a :: a in Live(s) ==> a in t.span && t.span[a] == s.span[a])
  }

  lemma SplitAllocates(s: Heap, b: int, size: int)
    requires b in s.free
    requires size >= 8 && size % 8 == 0
    requires s.span[b] - BLOCK_HEADER >= size + FREE_HEADER
    ensures WellFormed(Split(s, b, size))
    ensures Allocated(s, Split(s, b, size), b + s.span[b] - BLOCK_HEADER - size, size)
  {
    SplitWellFormed(s, b, size);
    assert b + s.span[b] - BLOCK_HEADER - size in Split(s, b, size).span;
  }

  lemma WholeAllocates(s: Heap, b: int, size: int)
    requires Fits(s, b, size)
    requires size >= 8 && size % 8 == 0
    requires s.span[b] - BLOCK_HEADER < size + FREE_HEADER
    ensures b in Nodes(s.ring) && WellFormed(Whole(s, b)) && Allocated(s, Whole(s, b), b, size)
  {
    WholeWellFormed(s, b);
    NoMoreThanEight(s.span[b], size);
    assert b % 8 == 0;
    hide Tiled, Ringed, Coalesced, Without, Successor;
  }

  lemma NoMoreThanEight(span: int, size: int)
    requires span % 8 == 0 && size % 8 == 0 && span - BLOCK_HEADER < size + FREE_HEADER
    ensures span - BLOCK_HEADER <= size + 8
  {
  }

  lemma GrowAllocates(s: Heap, size: int)
    requires size >= 8 && size % 8 == 0
    ensures WellFormed(Grow(s, size))
    ensures Allocated(s, Grow(s, size), s.end, size)
  {
    GrowWellFormed(s, size);
  }

  lemma SearchOutcome(s: Heap, size: int)
    ensures var b := Search(s, Rotation(s), size);
            (b != NULL ==> b in s.free && b in s.span && Fits(s, b, size))
            && (b == NULL <==> forall n :: n in s.free ==> !Fits(s, n, size))
  {
    NodesAreNotNull(s);
    RotationMembers(s);
    SearchFinds(s, Rotation(s), size);
    forall n | n in s.free
      ensures n in Nodes(s.ring)
    {
      assert n in s.ring;
    }
  }

  /** Allocation fails, changing nothing, exactly when no free block fits and the heap may
      not grow; the heap stays well formed and inside its limit. */
  lemma TakeWellFormed(s: Heap, size: int, limit: int)
    requires size >= 8 && size % 8 == 0
    ensures WellFormed(Take(s, size, limit).0)
    ensures var (t, b) := Take(s, size, limit);
            && (b == NULL <==>
                  (forall n :: n in s.free ==> !Fits(s, n, size)) && s.end + 4 + size + BLOCK_HEADER > limit)
            && (b == NULL ==> t == s)
            && (s.end + 4 <= limit ==> t.end + 4 <= limit)
  {
    SearchOutcome(s, size);
    var b := Search(s, Rotation(s), size);
    if b == NULL {
      GrowAllocates(s, size);
    } else if s.span[b] - BLOCK_HEADER >= size + FREE_HEADER {
      SplitAllocates(s, b, size);
    } else {
      WholeAllocates(s, b, size);
    }
  }

  /** When it succeeds one suitable block becomes live. */
  lemma TakeAllocates(s: Heap, size: int, limit: int)
    requires size >= 8 && size % 8 == 0
    requires Take(s, size, limit).1 != NULL
    ensures Allocated(s, Take(s, size, limit).0, Take(s, size, limit).1, size)
  {
    hide Tiled, Ringed, Coalesced, Split, Whole, Grow, Search, Rotation, Allocated;
    SearchOutcome(s, size);
    var b := Search(s, Rotation(s), size);
    if b == NULL {
      GrowAllocates(s, size);
    } else if s.span[b] - BLOCK_HEADER >= size + FREE_HEADER {
      SplitAllocates(s, b, size);
    } else {
      WholeAllocates(s, b, size);
    }
  }

  /** Where the block comes from: the end of the first free block behind the roving pointer that
      fits, where the next search starts, or behind which if nothing is left of it; the heap
      grows, by no more than the block, only if no free block fits. */
  lemma TakeIsNextFit(s: Heap, size: int, limit: int)
    requires size >= 8 && size % 8 == 0
    requires Take(s, size, limit).1 != NULL
    ensures var (t, b) := Take(s, size, limit);
            var hole := Search(s, Rotation(s), size);
            && b in t.span
            && if hole == NULL then
                 && (forall n :: n in s.free ==> !Fits(s, n, size))
                 && b == s.end && t.end == b + size + BLOCK_HEADER
                 && t.free == s.free && t.ring == s.ring && t.rover == s.rover
               else
                 && Fits(s, hole, size) && t.end == s.end && b + t.span[b] == hole + s.span[hole]
                 && if b == hole then t.free == s.free - {hole} && t.rover == Successor(s.ring, hole)
                    else t.free == s.free && t.span[hole] == b - hole && t.rover == hole
  {
    hide Tiled, Coalesced, Search, Rotation, Successor, Without;
    SearchOutcome(s, size);
  }

  // ----- conservation and complete coalescing

  /** The bytes of a set of blocks. */
  ghost function Bytes(span: map<int, int>, blocks: set<int>): int
    requires blocks <= span.Keys
  {
    if a :| a in blocks then span[a] + Bytes(span, blocks - {a}) else 0
  }

  lemma {:induction false} BytesTakeOut(span: map<int, int>, blocks: set<int>, b: int)
    requires blocks <= span.Keys && b in blocks
    ensures Bytes(span, blocks) == span[b] + Bytes(span, blocks - {b})
    decreases |blocks|
  {
    var a :| a in blocks && Bytes(span, blocks) == span[a] + Bytes(span, blocks - {a});
    if a != b {
      BytesTakeOut(span, blocks - {a}, b);
      BytesTakeOut(span, blocks - {b}, a);
      assert blocks - {a} - {b} == blocks - {b} - {a};
    }
  }

  lemma {:induction false} BytesSame(span: map<int, int>, span': map<int, int>, blocks: set<int>)
    requires blocks <= span.Keys && blocks <= span'.Keys
    requires forall a :: a in blocks ==> span[a] == span'[a]
    ensures Bytes(span, blocks) == Bytes(span', blocks)
    decreases |blocks|
  {
    if blocks != {} {
      var a := Pick(blocks);
      BytesSame(span, span', blocks - {a});
      BytesTakeOut(span, blocks, a);
      BytesTakeOut(span', blocks, a);
    }
  }

  lemma {:induction false} BytesUnion(span: map<int, int>, a: set<int>, b: set<int>)
    requires a <= span.Keys && b <= span.Keys && a !! b
    ensures Bytes(span, a + b) == Bytes(span, a) + Bytes(span, b)
    decreases |a|
  {
    if a == {} {
      assert a + b == b;
    } else {
      var x := Pick(a);
      BytesUnion(span, a - {x}, b);
      BytesTakeOut(span, a, x);
      BytesTakeOut(span, a + b, x);
      assert a + b - {x} == (a - {x}) + b;
    }
  }

  lemma {:induction false} TilesSum(span: map<int, int>, end: int)
    requires Tiled(span, end)
    ensures Bytes(span, span.Keys) == end - FIRST
    decreases |span|
  {
    if end == FIRST {
      SameMembers(span.Keys, {});
    } else {
      var b := LastBlock(span, end, FIRST);
      DropLastTiled(span, end, b);
      var t := span - {b};
      assert t.Keys == span.Keys - {b};
      assert |t.Keys| < |span.Keys|;
      TilesSum(t, b);
      BytesTakeOut(span, span.Keys, b);
      BytesSame(span, t, t.Keys);
    }
  }

  lemma LastBlock(span: map<int, int>, end: int, a: int) returns (b: int)
    requires Tiled(span, end) && a in span
    ensures b in span && b + span[b] == end
    decreases end - a
  {
    if EndOf(span, a) == end {
      b := a;
    } else {
      b := LastBlock(span, end, EndOf(span, a));
    }
  }

  /** Live bytes and free bytes add up to the heap size less its header. */
  lemma SpaceConserved(s: Heap)
    ensures Bytes(s.span, Live(s)) + Bytes(s.span, s.free) == s.end + 4 - HEADER
  {
    TilesSum(s.span, s.end);
    BytesUnion(s.span, Live(s), s.free);
    assert Live(s) + s.free == s.span.Keys;
  }

  /** A heap with nothing live is the initial heap. */
  lemma NothingLive(s: Heap)
    requires Live(s) == {}
    ensures s == Initial()
  {
    assert FIRST !in Live(s);
    if FIRST in s.span {
      FreeNeedsLive(s, FIRST);
    }
    SameMembers(s.span.Keys, {});
    EmptyRing(s.free, s.ring);
    assert s.rover in Nodes([]);
  }

  lemma FreeNeedsLive(s: Heap, a: int)
    requires a in s.free
    ensures EndOf(s.span, a) in Live(s)
  {
  }

  lemma EmptyRing(free: set<int>, ring: seq<int>)
    requires Ringed(free, ring) && free == {}
    ensures ring == []
  {
    if ring != [] {
      FirstMember(ring);
    }
  }

  lemma FirstMember(ring: seq<int>)
    requires ring != []
    ensures ring[0] in ring
  {
  }

  ghost function ReleaseAll(s: Shape, order: seq<int>): Shape
    decreases |order|
  {
    if order == [] then s
    else if order[0] in s.span then ReleaseAll(Release(s, order[0]), order[1..])
    else ReleaseAll(s, order[1..])
  }

  ghost predicate Distinct(xs: seq<int>) {
    forall i, j :: 0 <= i < j < |xs| ==> xs[i] != xs[j]
  }

  /** Freeing every live block, in whatever order, gives the initial heap back. */
  lemma {:induction false} ReleaseAllIsInitial(s: Heap, order: seq<int>)
    requires Distinct(order) && (forall b :: b in order <==> b in Live(s))
    ensures ReleaseAll(s, order) == Initial()
    decreases |order|
  {
    if order == [] {
      SameMembers(Live(s), {});
      NothingLive(s);
    } else {
      assert order[0] in order;
      ReleaseWellFormed(s, order[0]);
      var t := Release(s, order[0]);
      forall b
        ensures b in order[1..] <==> b in Live(t)
      {
        assert order == [order[0]] + order[1..];
      }
      ReleaseAllIsInitial(t, order[1..]);
    }
  }

  // ----- whole runs

  datatype Op = Alloc(size: int) | Dealloc(block: int)

  /** A request of any size, or a free of a live block. */
  ghost predicate Enabled(s: Shape, op: Op) {
    match op
    case Alloc(size) => size >= 0
    case Dealloc(b) => b in Live(s)
  }

  /** The effect of one operation; calls no correct client makes are passed over. */
  ghost function Step(s: Shape, op: Op, limit: int): Shape {
    if !WellFormed(s) || !Enabled(s, op) then s
    else match op
      case Alloc(size) => Take(s, Align(size), limit).0
      case Dealloc(b) => Release(s, b)
  }

  /** The heap after a run of operations on the freshly initialised heap. */
  ghost function Run(ops: seq<Op>, limit: int): Shape {
    if ops == [] then Initial() else Step(Run(ops[..|ops| - 1], limit), ops[|ops| - 1], limit)
  }

  lemma AlignProperties(size: int)
    requires size >= 0
    ensures Align(size) >= 8 && Align(size) % 8 == 0
    ensures size <= Align(size) < size + 8 || size == 0
  {
  }

  /** Every run keeps the heap well formed and inside its limit. */
  lemma {:induction false} RunsKeepWellFormed(ops: seq<Op>, limit: int)
    requires HEADER <= limit
    ensures WellFormed(Run(ops, limit))
    ensures Run(ops, limit).end + 4 <= limit
    decreases |ops|
  {
    if ops == [] {
      InitialWellFormed(Run(ops, limit));
    } else {
      var n := |ops| - 1;
      RunsKeepWellFormed(ops[..n], limit);
      StepKeepsWellFormed(Run(ops[..n], limit), ops[n], limit);
    }
  }

  lemma StepKeepsWellFormed(s: Heap, op: Op, limit: int)
    requires s.end + 4 <= limit
    ensures WellFormed(Step(s, op, limit)) && Step(s, op, limit).end + 4 <= limit
  {
    if Enabled(s, op) {
      match op {
        case Alloc(size) =>
          AlignProperties(size);
          TakeWellFormed(s, Align(size), limit);
        case Dealloc(b) =>
          ReleaseWellFormed(s, b);
          ReleaseShrinks(s, b);
      }
    }
  }

  lemma ReleaseShrinks(s: Heap, b: int)
    requires b in Live(s)
    ensures Release(s, b).end <= s.end
  {
    JoinPreviousWellFormed(s, b);
  }
}
