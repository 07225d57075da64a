/** The allocator of src/fifo/shmem.cpp on the bytes of the mapped file. The methods are to be
    called by the holder of the exclusive lock. */
module SharedHeap {
  import opened Memory
  import opened HeapShape
  import opened HeapBytes
  import opened Wrappers

  ghost function NodeSet(nodes: seq<int>): set<int> {
    set n | n in nodes
  }

  /** One call of global_func_log if a check fails. */
  function Report(ok: bool): nat {
    if ok then 0 else 1
  }

  class SharedMemory {
    const limit: int             // pMonitor->max_file_size
    const mem: array<Cell>
    ghost var shape: Heap
    ghost var file: HeapFile
    var reports: nat             // calls of global_func_log

    ghost predicate Valid()
      reads this, mem
    {
      mem.Length == limit && file == Mapped(mem[..], shape)
    }

    constructor (maxFileSize: int)
      requires HEADER <= maxFileSize < SIZE_LIMIT
      ensures Valid() && fresh(mem) && limit == maxFileSize
      ensures shape == Initial() && reports == 0
      ensures Holds(mem[..], ROOT, NULL)
    {
      limit := maxFileSize;
      mem := new Cell[maxFileSize](_ => Raw(0));
      reports := 0;
      InitialWellFormed(Initial());
      shape := Initial();
      file := Unmapped;
      new;
      InitHeader();
      assert Nodes(shape.ring) == [SENTINEL];
      file := Mapped(mem[..], shape);
    }

    /** The header of a fresh file. */
    method InitHeader()
      requires HEADER <= mem.Length
      modifies mem
      ensures Holds(mem[..], SIZE, HEADER) && Holds(mem[..], ROOT, NULL) && Holds(mem[..], BARRIER, -1)
      ensures Holds(mem[..], SENTINEL + FORWARD, 0) && Holds(mem[..], SENTINEL + NEXT, SENTINEL)
      ensures Holds(mem[..], SENTINEL + PREV, SENTINEL) && Holds(mem[..], FREE_LIST_POS, SENTINEL)
    {
      PutInt(0, NULL);
      PutInt(SIZE, HEADER);
      PutInt(ROOT, NULL);
      PutInt(BARRIER, -1);
      PutInt(SENTINEL + FORWARD, 0);
      PutInt(SENTINEL + NEXT, SENTINEL);
      PutInt(SENTINEL + PREV, SENTINEL);
      PutInt(FREE_LIST_POS, SENTINEL);
    }

    /** Store a 32-bit integer. */
    method PutInt(a: int, v: int)
      requires 0 <= a && a + 4 <= mem.Length && IsInt(v)
      modifies mem
      ensures Holds(mem[..], a, v)
      ensures SameOutside(old(mem[..]), mem[..], {}, {a})
      ensures forall i :: 0 <= i < mem.Length && !(a <= i < a + 4) ==> mem[i] == old(mem[i])
    {
      mem[a], mem[a + 1], mem[a + 2], mem[a + 3] := Part(v, 0), Part(v, 1), Part(v, 2), Part(v, 3);
    }

    /** Load a 32-bit integer from where one was stored. */
    method GetInt(a: int, ghost v: int) returns (w: int)
      requires Holds(mem[..], a, v)
      ensures w == v
    {
      match mem[a]
      case Part(x, _) => w := x;
      case Raw(_) => w := 0;
    }

    /** free_block::unlink. */
    method Unlink(bp: int, ghost nodes: seq<int>, ghost k: nat)
      requires Links(mem[..], nodes) && Spaced(nodes) && 1 <= k < |nodes| && nodes[k] == bp
      requires forall n :: n in nodes ==> IsInt(n)
      modifies mem
      ensures Links(mem[..], nodes[..k] + nodes[k + 1..])
      ensures SameOutside(old(mem[..]), mem[..], NodeSet(nodes), {})
      ensures Holds(mem[..], bp + NEXT, After(nodes, k))
    {
      assert After(nodes, k - 1) == bp;
      var prev := GetInt(bp + PREV, nodes[k - 1]);
      var next := GetInt(bp + NEXT, After(nodes, k));
      ghost var m0 := mem[..];
      PutInt(prev + NEXT, next);
      ghost var m1 := mem[..];
      PutInt(next + PREV, prev);
      UnlinkedWrites(m0, m1, mem[..], nodes, k);
    }

    /** free_block::link_after, behind the sentinel. */
    method LinkAfterSentinel(bp: int, ghost nodes: seq<int>)
      requires Links(mem[..], nodes) && nodes != [] && nodes[0] == SENTINEL
      requires Spaced([SENTINEL, bp] + nodes[1..])
      requires 0 <= bp && bp + FREE_HEADER <= mem.Length && IsInt(bp)
      requires forall n :: n in nodes ==> IsInt(n)
      modifies mem
      ensures Links(mem[..], [SENTINEL, bp] + nodes[1..])
      ensures SameOutside(old(mem[..]), mem[..], NodeSet(nodes) + {bp}, {})
    {
      ghost var next := After(nodes, 0);
      ghost var m0 := mem[..];
      var n := GetInt(SENTINEL + NEXT, next);
      PutInt(bp + NEXT, n);
      ghost var m1 := mem[..];
      PutInt(n + PREV, bp);
      ghost var m2 := mem[..];
      PutInt(bp + PREV, SENTINEL);
      ghost var m3 := mem[..];
      PutInt(SENTINEL + NEXT, bp);
      ghost var m4 := mem[..];
      InsertedWrites(m0, m1, m2, m3, m4, nodes, bp);
      Inserted(m0, m4, nodes, bp);
    }

    /** The first half of free: join block b to a free block before it, or list it. */
    method JoinPreviousBlock(b: int, oldSize: int) returns (at: int, size: int)
      requires Valid() && b in Live(shape) && oldSize == shape.span[b] - BLOCK_HEADER
      modifies mem
      ensures var (t, bp) := JoinPrevious(shape, b);
              at == bp && bp in t.span && RepresentsExcept(mem[..], t, bp) && size == t.span[bp] - BLOCK_HEADER
      ensures PayloadsKept(old(mem[..]), mem[..], shape, Live(shape) - {b})
    {
      ghost var m0 := mem[..];
      ghost var w, p := BackwardField(m0, shape, b);
      var backward := GetInt(b, w);
      if backward > 0 {
        size := oldSize + backward;
        at := b - backward;
        PutInt(FREE_LIST_POS, at);
        JoinedPrevious(m0, mem[..], shape, b, p);
      } else {
        size := oldSize;
        at := b;
        ListedSpaced(shape, b);
        NodesInside(shape);
        LinkAfterSentinel(b, Nodes(shape.ring));
        ghost var m1 := mem[..];
        PutInt(FREE_LIST_POS, at);
        Listed(m0, m1, mem[..], shape, b);
      }
    }

    /** The second half: join it to a free block after it, or cut it off the end. */
    method JoinNextBlock(at: int, oldSize: int, ghost t: Joined)
      requires at == t.rover && oldSize == t.span[at] - BLOCK_HEADER
      requires mem.Length == limit && RepresentsExcept(mem[..], t, at)
      modifies this`reports, mem
      ensures Represents(mem[..], JoinNext(t, at))
      ensures PayloadsKept(old(mem[..]), mem[..], t, Live(t))
      ensures reports == old(reports)
    {
      EndKnown(t, at);
      var offs := at + 4;
      var heapSize := GetInt(SIZE, t.end + 4);
      if offs + oldSize + BLOCK_HEADER < heapSize {
        TagOrMerge(at, oldSize, t);
      } else {
        reports := reports + Report(offs + oldSize + BLOCK_HEADER == heapSize);
        Truncate(at, t);
      }
    }

    method TagOrMerge(at: int, oldSize: int, ghost t: Joined)
      requires at == t.rover && oldSize == t.span[at] - BLOCK_HEADER && at + t.span[at] < t.end
      requires mem.Length == limit && RepresentsExcept(mem[..], t, at)
      modifies mem
      ensures Represents(mem[..], JoinNext(t, at))
      ensures PayloadsKept(old(mem[..]), mem[..], t, Live(t))
    {
      hide Ringed, Links, HeaderWords, IndexOf, Without, JoinNext;
      ghost var m0 := mem[..];
      EndKnown(t, at);
      var size := oldSize;
      var next := at + size + BLOCK_HEADER;
      assert TagsOf(m0, t, next);
      var forward := GetInt(next + FORWARD, ForwardTag(t, next));
      if forward > 0 {
        UnlinkFree(next, t);
        ghost var m1 := mem[..];
        size := size + forward + BLOCK_HEADER;
        PutInt(at + FORWARD, size);
        ghost var m2 := mem[..];
        PutInt(at + size + BLOCK_HEADER, size + BLOCK_HEADER);
        MergedNext(m0, m1, m2, mem[..], t, at);
      } else {
        PutInt(at + FORWARD, size);
        ghost var m2 := mem[..];
        PutInt(next, size + BLOCK_HEADER);
        TaggedNext(m0, m2, mem[..], t, at);
      }
    }

    /** Take the last block of the heap off the list and off the heap. */
    method Truncate(at: int, ghost t: Joined)
      requires at == t.rover && at + t.span[at] == t.end
      requires mem.Length == limit && RepresentsExcept(mem[..], t, at)
      modifies mem
      ensures Represents(mem[..], JoinNext(t, at))
      ensures PayloadsKept(old(mem[..]), mem[..], t, Live(t))
    {
      ghost var m0 := mem[..];
      EndKnown(t, at);
      UnlinkFree(at, t);
      ghost var m1 := mem[..];
      PutInt(SIZE, at + 4);
      ghost var m2 := mem[..];
      ghost var nodes := Nodes(Without(t.ring, at));
      WithoutInside(t, at);
      LinksKept(m1, m2, nodes, {SIZE});
      assert Holds(m2, nodes[0] + NEXT, After(nodes, 0));
      var first := GetInt(SENTINEL + NEXT, After(nodes, 0));
      assert first in nodes;
      PutInt(FREE_LIST_POS, first);
      Truncated(m0, m1, m2, mem[..], t, at);
    }

    /** free. */
    method Free(ptr: int)
      requires Valid() && ptr - BLOCK_HEADER in Live(shape)
      modifies this, mem
      ensures Valid() && reports == old(reports)
      ensures shape == Release(old(shape), ptr - BLOCK_HEADER)
      ensures PayloadsKept(old(mem[..]), mem[..], old(shape), Live(shape))
      ensures Live(shape) == Live(old(shape)) - {ptr - BLOCK_HEADER}
    {
      var b := ptr - BLOCK_HEADER;
      ghost var s := shape;
      ghost var m0 := mem[..];
      assert TagsOf(m0, s, b);
      var forward := GetInt(b + FORWARD, ForwardTag(s, b));
      var size := -forward;
      var after := GetInt(b + size + BLOCK_HEADER, BackwardTag(s, b));
      reports := reports + Report(after == -(size + BLOCK_HEADER));
      ghost var t := JoinPrevious(s, b).0;
      JoinPreviousWellFormed(s, b);
      var at;
      at, size := JoinPreviousBlock(b, size);
      ghost var m1 := mem[..];
      JoinNextBlock(at, size, t);
      ReleaseWellFormed(s, b);
      ReleaseKeepsOthers(s, b);
      PayloadsKeptTwice(m0, m1, mem[..], s, t, Live(s) - {b});
      shape := Release(s, b);
      file := Mapped(mem[..], shape);
    }

    /** reallocate. None is a failed allocation, whose NULL result the source goes on to copy
        to. Otherwise the old bytes are a prefix of the block returned. */
    method Reallocate(ptr: int, newSize: int, initializeByZero: bool) returns (r: Option<int>)
      requires Valid() && ptr - BLOCK_HEADER in Live(shape) && 0 <= newSize <= MAX_REQUEST
      modifies this, mem
      ensures Valid() && reports == old(reports)
      ensures r == None <==> newSize > old(shape).span[ptr - BLOCK_HEADER] - BLOCK_HEADER
                             && Take(old(shape), Align(newSize), limit).1 == NULL
      ensures r == None ==> shape == old(shape) && mem[..] == old(mem[..])
      ensures r.Some? ==> Relocated(old(mem[..]), mem[..], old(shape), shape, ptr - BLOCK_HEADER,
                                    r.value - BLOCK_HEADER)
      ensures r.Some? ==> newSize <= shape.span[r.value - BLOCK_HEADER] - BLOCK_HEADER
      ensures var b := ptr - BLOCK_HEADER;
              if newSize <= old(shape).span[b] - BLOCK_HEADER then
                r == Some(ptr) && shape == old(shape) && mem[..] == old(mem[..])
              else r.Some? ==>
                Moved(mem[..], old(shape), shape, b, newSize, limit, initializeByZero, r.value - BLOCK_HEADER)
    {
      assert TagsOf(mem[..], shape, ptr - BLOCK_HEADER);
      EndsInside(mem[..], shape);
      hide Tiled, Ringed, Coalesced, Take, Relocated, Moved, Represents;
      var forward := GetInt(ptr - BLOCK_HEADER + FORWARD, ForwardTag(shape, ptr - BLOCK_HEADER));
      var size := -forward;
      if newSize > size {
        r := Enlarge(ptr, size, newSize, initializeByZero);
        return;
      }
      Unmoved(mem[..], shape, ptr - BLOCK_HEADER);
      return Some(ptr);
    }

    /** The branch of reallocate that needs a new block. */
    method Enlarge(ptr: int, size: int, newSize: int, initializeByZero: bool) returns (r: Option<int>)
      requires Valid() && ptr - BLOCK_HEADER in Live(shape) && 0 <= newSize <= MAX_REQUEST
      requires size == shape.span[ptr - BLOCK_HEADER] - BLOCK_HEADER && newSize > size
      modifies this, mem
      ensures Valid() && reports == old(reports)
      ensures Enlarged(old(mem[..]), mem[..], old(shape), shape, ptr - BLOCK_HEADER, newSize, limit,
                       initializeByZero, r)
    {
      ghost var s, m0 := shape, mem[..];
      EndsInside(m0, s);
      hide *;
      var newPtr := Allocate(newSize, initializeByZero);
      if newPtr == NULL {
        NotEnlarged(m0, s, ptr - BLOCK_HEADER, newSize, limit, initializeByZero);
        return None;
      }
      Allotted(m0, mem[..], s, shape, newSize, limit, initializeByZero, newPtr);
      MoveInto(newPtr, ptr, size, newSize, initializeByZero, s, m0);
      return Some(newPtr);
    }

    /** The copy and the free of reallocate. */
    method MoveInto(newPtr: int, ptr: int, size: int, ghost newSize: int, ghost zero: bool, ghost s: Heap,
                    ghost m0: seq<Cell>)
      requires Valid() && ptr - BLOCK_HEADER in Live(s) && size == s.span[ptr - BLOCK_HEADER] - BLOCK_HEADER < newSize
      requires Made(m0, mem[..], s, shape, newSize, limit, zero, newPtr - BLOCK_HEADER) && s.end <= |m0|
      modifies this, mem
      ensures Valid() && reports == old(reports)
      ensures Enlarged(m0, mem[..], s, shape, ptr - BLOCK_HEADER, newSize, limit, zero, Some(newPtr))
    {
      hide Release, Tiled, Ringed, Coalesced, Represents, Moved, Take;
      ghost var t := shape;
      ghost var m1 := mem[..];
      ghost var b, q := ptr - BLOCK_HEADER, newPtr - BLOCK_HEADER;
      DisjointPayloads(m1, t, b, q);
      Copy(newPtr, ptr, size);
      ghost var m2 := mem[..];
      PayloadIsClients(m1, m2, t, q);
      file := Mapped(m2, t);
      Free(ptr);
      EndsInside(mem[..], shape);
      ReleaseKeepsOthers(t, b);
      CopiedAndFreed(m0, m1, m2, mem[..], s, t, b, q);
      AllMoved(m0, m1, mem[..], s, t, shape, b, newSize, limit, zero, q);
    }

    /** memcpy between ranges that do not overlap. */
    method Copy(dst: int, src: int, n: int)
      requires 0 <= dst && 0 <= src && 0 <= n && dst + n <= mem.Length && src + n <= mem.Length
      requires src + n <= dst || dst + n <= src
      modifies mem
      ensures SameBeside(old(mem[..]), mem[..], dst, dst + n)
      ensures forall i :: dst <= i < dst + n ==> mem[i] == old(mem[i - dst + src])
    {
      forall i | dst <= i < dst + n {
        mem[i] := mem[i - dst + src];
      }
    }

    /** check_heap, counting its reports: a well-formed heap draws none, and the walk visits
        every block. */
    method CheckHeap() returns (faults: nat, ghost walked: set<int>)
      requires Valid()
      ensures faults == 0
      ensures forall a :: a in shape.span <==> a in walked
    {
      faults := 0;
      walked := {};
      var bp := HEADER - 4;
      var heapSize := GetInt(SIZE, shape.end + 4);
      var eof := heapSize - 4;
      while bp < eof
        invariant FIRST <= bp <= eof && (bp == eof || bp in shape.span)
        invariant forall a :: a in walked <==> a in shape.span && a < bp
        invariant faults == 0
        decreases eof - bp
      {
        assert TagsOf(mem[..], shape, bp);
        assert EndOf(shape.span, bp) == bp + shape.span[bp];
        walked := walked + {bp};
        var size := GetInt(bp + FORWARD, ForwardTag(shape, bp));
        ghost var tag := BackwardTag(shape, bp);
        if size > 0 {
          size := size + BLOCK_HEADER;
          bp := bp + size;
        } else {
          size := size - BLOCK_HEADER;
          bp := bp - size;
        }
        var backward := GetInt(bp, tag);
        faults := faults + Report(size == backward);
      }
      faults := faults + Report(bp == eof);
    }

    /** set_root_object. */
    method SetRoot(root: int)
      requires Valid() && IsInt(root)
      modifies this`file, mem
      ensures Valid() && Holds(mem[..], ROOT, root)
      ensures SameBeside(old(mem[..]), mem[..], ROOT, ROOT + 4)
    {
      ghost var m := mem[..];
      PutInt(ROOT, root);
      RootIsClients(m, mem[..], shape);
      file := Mapped(mem[..], shape);
    }

    /** A client's store of an integer into its own block b. */
    method StoreInt(ghost b: int, a: int, v: int)
      requires Valid() && b in Live(shape) && IsInt(v)
      requires b + BLOCK_HEADER <= a && a + 4 <= b + shape.span[b]
      modifies this`file, mem
      ensures Valid() && Holds(mem[..], a, v) && SameBeside(old(mem[..]), mem[..], a, a + 4)
    {
      ghost var m := mem[..];
      PutInt(a, v);
      assert SameBeside(m, mem[..], a, a + 4);
      PayloadIsClients(m, mem[..], shape, b);
      file := Mapped(mem[..], shape);
    }

    /** A client's store of bytes into its own block b. */
    method StoreBytes(ghost b: int, a: int, bytes: seq<Byte>)
      requires Valid() && b in Live(shape)
      requires b + BLOCK_HEADER <= a && a + |bytes| <= b + shape.span[b]
      modifies this`file, mem
      ensures Valid() && SameBeside(old(mem[..]), mem[..], a, a + |bytes|)
      ensures forall i :: a <= i < a + |bytes| ==> mem[i] == Raw(bytes[i - a])
    {
      ghost var m := mem[..];
      forall i | a <= i < a + |bytes| {
        mem[i] := Raw(bytes[i - a]);
      }
      PayloadIsClients(m, mem[..], shape, b);
      file := Mapped(mem[..], shape);
    }

    /** A client's load of bytes it stored. */
    method LoadBytes(a: int, n: nat, ghost bytes: seq<Byte>) returns (r: seq<Byte>)
      requires 0 <= a && a + n <= mem.Length && n <= |bytes|
      requires forall i :: a <= i < a + n ==> mem[i] == Raw(bytes[i - a])
      ensures r == bytes[..n]
    {
      r := seq(n, k requires 0 <= k < n reads mem => if mem[a + k].Raw? then mem[a + k].b else 0);
    }

    /** The search loop of allocate: next fit from the roving pointer. */
    method FindHole(size: int) returns (hole: int)
      requires Valid() && size > 0
      ensures hole == Search(shape, Rotation(shape), size)
    {
      hide Tiled, Ringed, Coalesced;
      ghost var nodes := Rotation(shape);
      NodesAreNotNull(shape);
      var curr := GetInt(FREE_LIST_POS, shape.rover);
      hole := curr;
      ghost var j := 0;
      while true
        invariant 0 <= j < |nodes| && hole == nodes[j]
        invariant forall i :: 0 <= i < j ==> !Fits(shape, nodes[i], size)
        decreases |nodes| - j
      {
        ghost var w := HoleForward(mem[..], shape, nodes, size, j);
        var forward := GetInt(hole + FORWARD, w);
        if forward >= size {
          SearchAt(shape, nodes, size, j);
          return;
        }
        HoleNext(mem[..], shape, nodes, j);
        hole := GetInt(hole + NEXT, After(nodes, j));
        j := j + 1;
        if hole == curr {
          SearchAt(shape, nodes, size, j);
          return NULL;
        }
      }
    }

    /** allocate. NULL stands for the NULL result. */
    method Allocate(requested: int, initializeByZero: bool) returns (p: int)
      requires Valid() && 0 <= requested <= MAX_REQUEST
      modifies this`shape, this`file, mem
      ensures Valid()
      ensures var (t, b) := Take(old(shape), Align(requested), limit);
              shape == t && p == if b == NULL then NULL else b + BLOCK_HEADER
      ensures p == NULL <==> Take(old(shape), Align(requested), limit).1 == NULL
      ensures p == NULL ==> shape == old(shape) && mem[..] == old(mem[..])
      ensures PayloadsKept(old(mem[..]), mem[..], old(shape), Live(old(shape)))
      ensures p != NULL ==> p - BLOCK_HEADER in Live(shape)
      ensures p != NULL && initializeByZero ==> ZeroPayload(mem[..], shape, p - BLOCK_HEADER)
    {
      hide Take, Represents, Ringed, Coalesced;
      AlignProperties(requested);
      ghost var s := shape;
      ghost var m0 := mem[..];
      var bp, size := FindSpace(Align(requested));
      if bp == NULL {
        return NULL;
      }
      ghost var m1 := mem[..];
      Finish(bp, size, initializeByZero);
      PayloadsKeptTwice(m0, m1, mem[..], s, shape, Live(s));
      p := bp + BLOCK_HEADER;
    }

    /** The first half of allocate: find or make room, and everything but the new tags. */
    method FindSpace(aligned: int) returns (bp: int, size: int)
      requires Valid() && 8 <= aligned <= MAX_REQUEST && aligned % 8 == 0
      modifies this`shape, mem
      ensures mem.Length == limit && (shape, bp) == Take(old(shape), aligned, limit)
      ensures bp == NULL ==> shape == old(shape) && mem[..] == old(mem[..])
      ensures bp != NULL ==> RepresentsExcept(mem[..], shape, bp) && Allocated(old(shape), shape, bp, aligned)
      ensures bp != NULL ==> size == shape.span[bp] - BLOCK_HEADER
      ensures PayloadsKept(old(mem[..]), mem[..], old(shape), Live(old(shape)))
    {
      hide Ringed, Coalesced, Search, Rotation, Allocated;
      size := aligned;
      bp := FindHole(size);
      SearchOutcome(shape, size);
      if bp != NULL {
        assert TagsOf(mem[..], shape, bp);
        var forward := GetInt(bp + FORWARD, shape.span[bp] - BLOCK_HEADER);
        if forward >= size + FREE_HEADER {
          bp := CarveTail(bp, size);
        } else {
          size := TakeWhole(bp, size);
        }
      } else {
        var heapSize := GetInt(SIZE, shape.end + 4);
        assert heapSize + size + BLOCK_HEADER < SIZE_T_LIMIT;
        if heapSize + size + BLOCK_HEADER > limit {
          return NULL, size;
        }
        bp := Extend(size);
      }
    }

    /** The second half: the tags of the new block, and its payload if asked. */
    method Finish(bp: int, size: int, initializeByZero: bool)
      requires mem.Length == limit && RepresentsExcept(mem[..], shape, bp) && bp in Live(shape)
      requires size == shape.span[bp] - BLOCK_HEADER
      modifies this`file, mem
      ensures Valid()
      ensures PayloadsKept(old(mem[..]), mem[..], shape, Live(shape) - {bp})
      ensures initializeByZero ==> forall i :: bp + BLOCK_HEADER <= i < bp + shape.span[bp] ==> mem[i] == Raw(0)
    {
      ghost var m0 := mem[..];
      PutInt(bp + FORWARD, -size);
      ghost var m1 := mem[..];
      PutInt(bp + size + BLOCK_HEADER, -(size + BLOCK_HEADER));
      ghost var m2 := mem[..];
      Finished(m0, m1, m2, shape, bp);
      if initializeByZero {
        Clear(bp + BLOCK_HEADER, size);
        PayloadIsClients(m2, mem[..], shape, bp);
        PayloadsKeptTwice(m0, m2, mem[..], shape, shape, Live(shape) - {bp});
      }
      file := Mapped(mem[..], shape);
    }

    /** memset to zero. */
    method Clear(p: int, size: int)
      requires 0 <= p && 0 <= size && p + size <= mem.Length
      modifies mem
      ensures SameBeside(old(mem[..]), mem[..], p, p + size)
      ensures forall i :: p <= i < p + size ==> mem[i] == Raw(0)
    {
      forall i | p <= i < p + size {
        mem[i] := Raw(0);
      }
    }

    /** allocate on a free block with room to spare: cut off its tail. */
    method CarveTail(free: int, size: int) returns (bp: int)
      requires Valid() && free in shape.free && size >= 8 && size % 8 == 0
      requires shape.span[free] - BLOCK_HEADER >= size + FREE_HEADER
      modifies this`shape, mem
      ensures shape == Split(old(shape), free, size) && bp == free + old(shape).span[free] - BLOCK_HEADER - size
      ensures mem.Length == limit && RepresentsExcept(mem[..], shape, bp)
      ensures Allocated(old(shape), shape, bp, size) && shape.span[bp] == size + BLOCK_HEADER
      ensures PayloadsKept(old(mem[..]), mem[..], old(shape), Live(old(shape)))
    {
      ghost var s := shape;
      ghost var m0 := mem[..];
      assert TagsOf(m0, s, free);
      PutInt(FREE_LIST_POS, free);
      ghost var m1 := mem[..];
      HoldsKept(m0, m1, {}, {FREE_LIST_POS}, free + FORWARD, s.span[free] - BLOCK_HEADER);
      var forward := GetInt(free + FORWARD, s.span[free] - BLOCK_HEADER);
      var offs := forward - size;
      PutInt(free + FORWARD, offs - BLOCK_HEADER);
      ghost var m2 := mem[..];
      bp := free + offs;
      PutInt(bp, offs);
      SplitAllocates(s, free, size);
      Carved(m0, m1, m2, mem[..], s, free, size);
      shape := Split(s, free, size);
    }

    /** allocate on a free block with nothing to spare: take it off the list. */
    method TakeWhole(bp: int, size: int) returns (forward: int)
      requires Valid() && Fits(shape, bp, size) && size >= 8 && size % 8 == 0
      requires shape.span[bp] - BLOCK_HEADER < size + FREE_HEADER
      modifies this`shape, mem
      ensures bp in Nodes(old(shape).ring) && shape == Whole(old(shape), bp) && forward == shape.span[bp] - BLOCK_HEADER
      ensures mem.Length == limit && RepresentsExcept(mem[..], shape, bp)
      ensures Allocated(old(shape), shape, bp, size)
      ensures PayloadsKept(old(mem[..]), mem[..], old(shape), Live(old(shape)))
    {
      ghost var s := shape;
      ghost var m0 := mem[..];
      assert TagsOf(m0, s, bp);
      UnlinkFree(bp, s);
      ghost var m1 := mem[..];
      NodesInside(s);
      SuccessorInList(s.ring, bp);
      HoldsKept(m0, m1, NodeSet(Nodes(s.ring)), {}, bp + FORWARD, s.span[bp] - BLOCK_HEADER);
      forward := GetInt(bp + FORWARD, s.span[bp] - BLOCK_HEADER);
      var next := GetInt(bp + NEXT, Successor(s.ring, bp));
      PutInt(FREE_LIST_POS, next);
      WholeAllocates(s, bp, size);
      TookWhole(m0, m1, mem[..], s, bp);
      shape := Whole(s, bp);
    }

    /** allocate when nothing fits: append a block to the heap. */
    method Extend(size: int) returns (bp: int)
      requires Valid() && size >= 8 && size % 8 == 0
      requires shape.end + 4 + size + BLOCK_HEADER <= limit
      modifies this`shape, mem
      ensures shape == Grow(old(shape), size) && bp == old(shape).end
      ensures mem.Length == limit && RepresentsExcept(mem[..], shape, bp)
      ensures Allocated(old(shape), shape, bp, size) && shape.span[bp] == size + BLOCK_HEADER
      ensures PayloadsKept(old(mem[..]), mem[..], old(shape), Live(old(shape)))
    {
      ghost var s := shape;
      ghost var m0 := mem[..];
      var heapSize := GetInt(SIZE, s.end + 4);
      bp := heapSize - 4;
      PutInt(SIZE, heapSize + size + BLOCK_HEADER);
      GrowAllocates(s, size);
      Extended(m0, mem[..], s, size);
      shape := Grow(s, size);
    }

    /** unlink for a block of the free list. */
    method UnlinkFree(bp: int, ghost t: Laid)
      requires bp in t.free && Links(mem[..], Nodes(t.ring)) && t.end < SIZE_LIMIT
      modifies mem
      ensures Links(mem[..], Nodes(Without(t.ring, bp)))
      ensures SameOutside(old(mem[..]), mem[..], NodeSet(Nodes(t.ring)), {})
      ensures bp in Nodes(t.ring) && Holds(mem[..], bp + NEXT, Successor(t.ring, bp))
    {
      FreeBlocksSpaced(t);
      NodesInside(t);
      NodesWithout(t.ring, bp);
      SuccessorInList(t.ring, bp);
      Unlink(bp, Nodes(t.ring), IndexOf(t.ring, bp) + 1);
    }
  }

  lemma RootIsClients(m: seq<Cell>, m': seq<Cell>, s: Heap)
    requires Represents(m, s) && SameOutside(m, m', {}, {ROOT})
    ensures Represents(m', s)
  {
    HoldsKept(m, m', {}, {ROOT}, FREE_LIST_POS, s.rover);
    HoldsKept(m, m', {}, {ROOT}, SENTINEL + FORWARD, 0);
    HoldsKept(m, m', {}, {ROOT}, SIZE, s.end + 4);
    HoldsKept(m, m', {}, {ROOT}, BARRIER, -1);
    NodesInside(s);
    LinksKept(m, m', Nodes(s.ring), {ROOT});
    TagsKept(m, m', s, s, NULL, {}, {ROOT});
  }

  /** One step of the search: what the node at position j holds, */
  lemma HoleForward(m: seq<Cell>, s: Heap, nodes: seq<int>, size: int, j: nat) returns (w: int)
    requires Represents(m, s) && nodes == Rotation(s) && j < |nodes| && size > 0
    ensures Holds(m, nodes[j] + FORWARD, w) && (w >= size <==> Fits(s, nodes[j], size))
  {
    RotationMembers(s);
    assert nodes[j] in nodes;
    NodeForward(m, s, nodes[j], size);
    w := if nodes[j] in s.span then s.span[nodes[j]] - BLOCK_HEADER else 0;
  }

  /** and where the list goes from there. */
  lemma HoleNext(m: seq<Cell>, s: Heap, nodes: seq<int>, j: nat)
    requires Links(m, Nodes(s.ring)) && nodes == Rotation(s) && j < |nodes|
    ensures Holds(m, nodes[j] + NEXT, After(nodes, j))
    ensures After(nodes, j) == nodes[0] <==> j + 1 == |nodes|
  {
    FreeBlocksSpaced(s);
    RotationLinks(m, s, j);
    if j + 1 < |nodes| {
      RotationDistinct(s, j + 1);
    }
  }

  lemma PayloadsKeptTwice(m0: seq<Cell>, m1: seq<Cell>, m2: seq<Cell>, s: Shape, t: Shape, blocks: set<int>)
    requires PayloadsKept(m0, m1, s, blocks) && PayloadsKept(m1, m2, t, blocks)
    requires forall a :: a in blocks ==> a in s.span && a in t.span && s.span[a] == t.span[a]
    ensures PayloadsKept(m0, m2, s, blocks)
  {
  }

  lemma DisjointPayloads(m: seq<Cell>, s: Heap, a: int, b: int)
    requires Represents(m, s) && a in s.span && b in s.span && a != b
    ensures a + s.span[a] <= b + BLOCK_HEADER || b + s.span[b] <= a + BLOCK_HEADER
    ensures 0 <= a && 0 <= b && a + s.span[a] <= |m| && b + s.span[b] <= |m| && FREE_HEADER <= s.span[a]
    ensures s.end <= |m|
  {
  }

  lemma EndsInside(m: seq<Cell>, s: Heap)
    requires Represents(m, s)
    ensures s.end <= |m|
  {
  }

  /** Block b of s has become block q of t: its bytes are a prefix of the new payload, and
      every other live block is where and what it was. */
  ghost predicate Relocated(m0: seq<Cell>, m1: seq<Cell>, s: Heap, t: Heap, b: int, q: int) {
    && b in Live(s) && q in Live(t) && Live(t) == Live(s) - {b} + {q}
    && s.end <= |m0| == |m1| && t.end <= |m1|
    && s.span[b] <= t.span[q]
    && Payload(m0, s, b) <= Payload(m1, t, q)
    && PayloadsKept(m0, m1, s, Live(s) - {b})
  }

  /** Block b of s has been freed, after allocate has made block q for the new size; what is
      behind the copied bytes is zero if asked. */
  ghost predicate Moved(m: seq<Cell>, s: Heap, t: Heap, b: int, newSize: int, limit: int, zero: bool, q: int) {
    var (made, at) := Take(s, Align(newSize), limit);
    && q == at && b in s.span && b in made.span && t == Release(made, b)
    && q in t.span && newSize <= t.span[q] - BLOCK_HEADER
    && (zero ==> forall i :: q + s.span[b] <= i < q + t.span[q] && 0 <= i < |m| ==> m[i] == Raw(0))
  }

  /** The payload of block q has the same bytes from the given distance on. */
  ghost predicate SameBehind(m: seq<Cell>, m': seq<Cell>, s: Shape, q: int, from: int) {
    |m'| == |m| && q in s.span && forall i :: q + from <= i < q + s.span[q] && 0 <= i < |m| ==> m'[i] == m[i]
  }

  ghost predicate ZeroPayload(m: seq<Cell>, s: Shape, b: int) {
    b in s.span && b + s.span[b] <= |m| &&
    forall i :: b + BLOCK_HEADER <= i < b + s.span[b] && 0 <= i ==> m[i] == Raw(0)
  }

  /** What allocate leaves for reallocate. */
  ghost predicate Made(m0: seq<Cell>, m: seq<Cell>, s: Heap, t: Heap, newSize: int, limit: int, zero: bool, q: int) {
    && Take(s, Align(newSize), limit) == (t, q) && q != NULL
    && q !in Live(s) && Live(t) == Live(s) + {q} && newSize <= t.span[q] - BLOCK_HEADER
    && (forall a :: a in Live(s) ==> t.span[a] == s.span[a])
    && PayloadsKept(m0, m, s, Live(s))
    && (zero ==> ZeroPayload(m, t, q))
  }

  lemma Allotted(m0: seq<Cell>, m: seq<Cell>, s: Heap, t: Heap, newSize: int, limit: int, zero: bool, p: int)
    requires newSize >= 0 && p != NULL && PayloadsKept(m0, m, s, Live(s))
    requires var (u, b) := Take(s, Align(newSize), limit); t == u && b != NULL && p == b + BLOCK_HEADER
    requires zero ==> ZeroPayload(m, t, p - BLOCK_HEADER)
    ensures Made(m0, m, s, t, newSize, limit, zero, p - BLOCK_HEADER)
  {
    AlignProperties(newSize);
    hide Take, PayloadsKept;
    TakeAllocates(s, Align(newSize), limit);
  }

  lemma AllMoved(m0: seq<Cell>, m1: seq<Cell>, m2: seq<Cell>, s: Heap, made: Heap, t: Heap, b: int, newSize: int,
                 limit: int, zero: bool, q: int)
    requires Made(m0, m1, s, made, newSize, limit, zero, q) && b in Live(s) && t == Release(made, b)
    requires q in made.span && q in t.span && t.span[q] == made.span[q]
    requires SameBehind(m1, m2, made, q, s.span[b])
    ensures Moved(m2, s, t, b, newSize, limit, zero, q)
  {
    assert s.span[b] >= BLOCK_HEADER;
    hide Take, Release, PayloadsKept;
  }

  /** The outcome of the branch of reallocate that needs a new block. */
  ghost predicate Enlarged(m0: seq<Cell>, m: seq<Cell>, s: Heap, t: Heap, b: int, newSize: int, limit: int, zero: bool,
                           r: Option<int>)
  {
    && (r == None <==> Take(s, Align(newSize), limit).1 == NULL)
    && (r == None ==> t == s && m == m0)
    && (r.Some? ==>
          Relocated(m0, m, s, t, b, r.value - BLOCK_HEADER)
          && Moved(m, s, t, b, newSize, limit, zero, r.value - BLOCK_HEADER))
  }

  lemma NotEnlarged(m: seq<Cell>, s: Heap, b: int, newSize: int, limit: int, zero: bool)
    requires Take(s, Align(newSize), limit).1 == NULL
    ensures Enlarged(m, m, s, s, b, newSize, limit, zero, None)
  {
  }

  lemma Unmoved(m: seq<Cell>, s: Heap, b: int)
    requires b in Live(s) && s.end <= |m|
    ensures Relocated(m, m, s, s, b, b)
  {
  }

  lemma CopiedAndFreed(m0: seq<Cell>, m1: seq<Cell>, m2: seq<Cell>, m3: seq<Cell>, s: Heap, t: Heap, b: int, q: int)
    requires b in Live(s) && s.end <= |m0|
    requires Live(t) == Live(s) + {q} && q !in Live(s) && s.span[b] <= t.span[q] && t.end <= |m0|
    requires forall a :: a in Live(s) ==> t.span[a] == s.span[a]
    requires PayloadsKept(m0, m1, s, Live(s))
    requires PayloadsKept(m1, m2, t, Live(t) - {q})
    requires PayloadsKept(m2, m3, t, Live(t) - {b})
    requires forall i :: q + BLOCK_HEADER <= i < q + s.span[b] ==> m2[i] == m1[i - q + b]
    ensures PayloadsKept(m0, m3, s, Live(s) - {b})
    ensures Payload(m0, s, b) <= Payload(m3, t, q)
  {
    PayloadsKeptTwice(m0, m1, m2, s, t, Live(s) - {b});
    PayloadsKeptTwice(m0, m2, m3, s, t, Live(s) - {b});
    forall i | q + BLOCK_HEADER <= i < q + s.span[b]
      ensures m3[i] == m0[i - q + b]
    {
      assert m3[i] == m2[i];
      assert m1[i - q + b] == m0[i - q + b];
    }
    var before, after := Payload(m0, s, b), Payload(m3, t, q);
    forall k | 0 <= k < |before|
      ensures before[k] == after[k]
    {
      assert after[k] == m3[q + BLOCK_HEADER + k];
    }
  }

  lemma EndKnown(t: Joined, at: int)
    requires at == t.rover
    ensures var e := at + t.span[at];
            e <= t.end && (e < t.end ==> e in t.span) && at in t.ring && FIRST <= at
            && (e in t.free ==> e in t.ring && e + t.span[e] <= t.end)
  {
    assert EndOf(t.span, at) == at + t.span[at];
  }

  lemma JoinedPrevious(m: seq<Cell>, m': seq<Cell>, s: Heap, b: int, p: int)
    requires Represents(m, s) && b in Live(s) && IsPrevFree(s, b, p)
    requires Holds(m', FREE_LIST_POS, p) && SameOutside(m, m', {}, {FREE_LIST_POS})
    ensures var (t, at) := JoinPrevious(s, b);
            at == p && p in t.span && t.span[p] == s.span[p] + s.span[b] && RepresentsExcept(m', t, p)
    ensures PayloadsKept(m, m', s, Live(s) - {b})
  {
    var (t, at) := JoinPrevious(s, b);
    PrevFreeUnique(s, b, p, at);
    NodesInside(s);
    HeaderWordsKept(m, m', {}, {FREE_LIST_POS}, s.end + 4);
    LinksKept(m, m', Nodes(s.ring), {FREE_LIST_POS});
    TagsKept(m, m', s, t, p, {}, {FREE_LIST_POS});
    PayloadsUntouched(m, m', s, Live(s) - {b}, {}, {FREE_LIST_POS});
  }

  lemma ListedSpaced(s: Heap, b: int)
    requires b in Live(s)
    ensures Spaced([SENTINEL, b] + Nodes(s.ring)[1..])
  {
    var nodes := [SENTINEL, b] + Nodes(s.ring)[1..];
    forall i, j | 0 <= i < j < |nodes|
      ensures nodes[i] + FREE_HEADER <= nodes[j] || nodes[j] + FREE_HEADER <= nodes[i]
    {
      assert forall k :: 2 <= k < |nodes| ==> nodes[k] == s.ring[k - 2] && s.ring[k - 2] in s.ring;
    }
  }

  lemma Listed(m0: seq<Cell>, m1: seq<Cell>, m2: seq<Cell>, s: Heap, b: int)
    requires Represents(m0, s) && b in Live(s) && forall p :: !IsPrevFree(s, b, p)
    requires Links(m1, [SENTINEL, b] + Nodes(s.ring)[1..])
    requires SameOutside(m0, m1, NodeSet(Nodes(s.ring)) + {b}, {})
    requires Holds(m2, FREE_LIST_POS, b) && SameOutside(m1, m2, {}, {FREE_LIST_POS})
    ensures var (t, at) := JoinPrevious(s, b);
            at == b && b in t.span && t.span[b] == s.span[b] && RepresentsExcept(m2, t, b)
    ensures PayloadsKept(m0, m2, s, Live(s) - {b})
  {
    var (t, at) := JoinPrevious(s, b);
    var nodes := NodeSet(Nodes(s.ring)) + {b};
    SameOutsideTransitive(m0, m1, m2, nodes, {}, {}, {FREE_LIST_POS});
    SameOutsideWeaken(m0, m2, nodes + {}, {} + {FREE_LIST_POS}, nodes, {FREE_LIST_POS});
    NodesInside(s);
    ListedLinks(m1, m2, s, t, b);
    ListedTags(m0, m2, s, t, b, nodes);
    HeaderWordsKept(m0, m2, nodes, {FREE_LIST_POS}, s.end + 4);
  }

  lemma ListedLinks(m1: seq<Cell>, m2: seq<Cell>, s: Heap, t: Shape, b: int)
    requires b in Live(s) && t.ring == [b] + s.ring
    requires Links(m1, [SENTINEL, b] + Nodes(s.ring)[1..]) && SameOutside(m1, m2, {}, {FREE_LIST_POS})
    ensures Links(m2, Nodes(t.ring))
  {
    assert Nodes(t.ring) == [SENTINEL, b] + Nodes(s.ring)[1..];
    NodesInside(s);
    forall n | n in Nodes(t.ring)
      ensures n >= SENTINEL
    {
      if n != b {
        assert n in Nodes(s.ring);
      }
    }
    LinksKept(m1, m2, Nodes(t.ring), {FREE_LIST_POS});
  }

  lemma ListedTags(m0: seq<Cell>, m2: seq<Cell>, s: Heap, t: Shape, b: int, nodes: set<int>)
    requires Represents(m0, s) && b in Live(s)
    requires t == s.(free := s.free + {b}, ring := [b] + s.ring, rover := b)
    requires nodes == NodeSet(Nodes(s.ring)) + {b}
    requires SameOutside(m0, m2, nodes, {FREE_LIST_POS})
    ensures forall a :: a in t.span && a != b ==> TagsOf(m2, t, a)
    ensures PayloadsKept(m0, m2, s, Live(s) - {b})
  {
    NodesInside(s);
    TagsKept(m0, m2, s, t, b, nodes, {FREE_LIST_POS});
    PayloadsUntouched(m0, m2, s, Live(s) - {b}, nodes, {FREE_LIST_POS});
  }

  lemma InsertedWrites(m0: seq<Cell>, m1: seq<Cell>, m2: seq<Cell>, m3: seq<Cell>, m4: seq<Cell>, nodes: seq<int>,
                       bp: int)
    requires nodes != [] && nodes[0] == SENTINEL && Spaced([SENTINEL, bp] + nodes[1..])
    requires Holds(m1, bp + NEXT, After(nodes, 0)) && SameOutside(m0, m1, {}, {bp + NEXT})
    requires Holds(m2, After(nodes, 0) + PREV, bp) && SameOutside(m1, m2, {}, {After(nodes, 0) + PREV})
    requires Holds(m3, bp + PREV, SENTINEL) && SameOutside(m2, m3, {}, {bp + PREV})
    requires Holds(m4, SENTINEL + NEXT, bp) && SameOutside(m3, m4, {}, {SENTINEL + NEXT})
    ensures SameOutside(m0, m4, {}, {bp + NEXT, bp + PREV, nodes[0] + NEXT, After(nodes, 0) + PREV})
    ensures Holds(m4, bp + NEXT, After(nodes, 0)) && Holds(m4, After(nodes, 0) + PREV, bp)
    ensures Holds(m4, SENTINEL + NEXT, bp) && Holds(m4, bp + PREV, SENTINEL)
  {
    var next := After(nodes, 0);
    var longer := [SENTINEL, bp] + nodes[1..];
    assert longer[0] == SENTINEL && longer[1] == bp;
    Apart(longer, 0, 1);
    if |nodes| > 1 {
      assert longer[2] == nodes[1];
      Apart(longer, 1, 2);
      Apart(longer, 0, 2);
    }
    FourWrites(m0, m1, m2, m3, m4, bp + NEXT, next + PREV, bp + PREV, SENTINEL + NEXT, next, bp, SENTINEL, bp);
    SameOutsideWeaken(m0, m4, {}, {bp + NEXT, next + PREV, bp + PREV, SENTINEL + NEXT},
                      {}, {bp + NEXT, bp + PREV, nodes[0] + NEXT, next + PREV});
  }

  lemma Inserted(m0: seq<Cell>, m4: seq<Cell>, nodes: seq<int>, bp: int)
    requires nodes != [] && nodes[0] == SENTINEL && Spaced([SENTINEL, bp] + nodes[1..]) && Links(m0, nodes)
    requires SameOutside(m0, m4, {}, {bp + NEXT, bp + PREV, nodes[0] + NEXT, After(nodes, 0) + PREV})
    requires Holds(m4, bp + NEXT, After(nodes, 0)) && Holds(m4, After(nodes, 0) + PREV, bp)
    requires Holds(m4, SENTINEL + NEXT, bp) && Holds(m4, bp + PREV, SENTINEL)
    ensures Links(m4, [SENTINEL, bp] + nodes[1..])
    ensures SameOutside(m0, m4, NodeSet(nodes) + {bp}, {})
  {
    Linked(m0, m4, nodes, bp);
    assert After(nodes, 0) in nodes;
    LinkWordsInNodes(m0, m4, {bp + NEXT, bp + PREV, nodes[0] + NEXT, After(nodes, 0) + PREV}, NodeSet(nodes) + {bp});
  }

  /** Words that are links of some nodes lie inside those nodes. */
  lemma LinkWordsInNodes(m: seq<Cell>, m': seq<Cell>, words: set<int>, nodes: set<int>)
    requires SameOutside(m, m', {}, words)
    requires forall w | w in words :: w - NEXT in nodes || w - PREV in nodes
    ensures SameOutside(m, m', nodes, {})
  {
    forall i | 0 <= i < |m| && forall n | n in nodes :: !(n + 8 <= i < n + 16)
      ensures m[i] == m'[i]
    {
      forall w | w in words
        ensures !(w <= i < w + 4)
      {
        var n := if w - NEXT in nodes then w - NEXT else w - PREV;
        assert n in nodes;
      }
    }
  }

  lemma UnlinkedWrites(m0: seq<Cell>, m1: seq<Cell>, m2: seq<Cell>, nodes: seq<int>, k: nat)
    requires Links(m0, nodes) && Spaced(nodes) && 1 <= k < |nodes|
    requires Holds(m1, nodes[k - 1] + NEXT, After(nodes, k)) && SameOutside(m0, m1, {}, {nodes[k - 1] + NEXT})
    requires Holds(m2, After(nodes, k) + PREV, nodes[k - 1]) && SameOutside(m1, m2, {}, {After(nodes, k) + PREV})
    ensures Links(m2, nodes[..k] + nodes[k + 1..])
    ensures SameOutside(m0, m2, NodeSet(nodes), {})
    ensures Holds(m2, nodes[k] + NEXT, After(nodes, k))
  {
    var prev := nodes[k - 1];
    var next := After(nodes, k);
    ThenWrite(m0, m1, m2, {prev + NEXT}, next + PREV);
    SameOutsideWeaken(m0, m2, {}, {prev + NEXT} + {next + PREV}, {}, {prev + NEXT, next + PREV});
    assert prev + NEXT + 4 <= next + PREV || next + PREV + 4 <= prev + NEXT by {
      var j := if k + 1 < |nodes| then k + 1 else 0;
      if j < k - 1 {
        Apart(nodes, j, k - 1);
      } else if k - 1 < j {
        Apart(nodes, k - 1, j);
      }
    }
    HoldsKept(m1, m2, {}, {next + PREV}, prev + NEXT, next);
    Apart(nodes, k - 1, k);
    HoldsKept(m0, m2, {}, {prev + NEXT, next + PREV}, nodes[k] + NEXT, next);
    Unlinked(m0, m2, nodes, k);
    LinkWordsInNodes(m0, m2, {prev + NEXT, next + PREV}, NodeSet(nodes));
  }

  /** Four writes to words that do not overlap. */
  lemma FourWrites(m0: seq<Cell>, m1: seq<Cell>, m2: seq<Cell>, m3: seq<Cell>, m4: seq<Cell>,
                   a1: int, a2: int, a3: int, a4: int, v1: int, v2: int, v3: int, v4: int)
    requires Holds(m1, a1, v1) && SameOutside(m0, m1, {}, {a1})
    requires Holds(m2, a2, v2) && SameOutside(m1, m2, {}, {a2})
    requires Holds(m3, a3, v3) && SameOutside(m2, m3, {}, {a3})
    requires Holds(m4, a4, v4) && SameOutside(m3, m4, {}, {a4})
    requires (a1 + 4 <= a2 || a2 + 4 <= a1) && (a1 + 4 <= a3 || a3 + 4 <= a1) && (a1 + 4 <= a4 || a4 + 4 <= a1)
    requires (a2 + 4 <= a3 || a3 + 4 <= a2) && (a2 + 4 <= a4 || a4 + 4 <= a2) && (a3 + 4 <= a4 || a4 + 4 <= a3)
    ensures SameOutside(m0, m4, {}, {a1, a2, a3, a4})
    ensures Holds(m4, a1, v1) && Holds(m4, a2, v2) && Holds(m4, a3, v3) && Holds(m4, a4, v4)
  {
    ThenWrite(m0, m1, m2, {a1}, a2);
    ThenWrite(m0, m2, m3, {a1} + {a2}, a3);
    ThenWrite(m0, m3, m4, {a1} + {a2} + {a3}, a4);
    SameOutsideWeaken(m0, m4, {}, {a1} + {a2} + {a3} + {a4}, {}, {a1, a2, a3, a4});
    HoldsKept(m1, m2, {}, {a2}, a1, v1);
    HoldsKept(m2, m3, {}, {a3}, a1, v1);
    HoldsKept(m3, m4, {}, {a4}, a1, v1);
    HoldsKept(m2, m3, {}, {a3}, a2, v2);
    HoldsKept(m3, m4, {}, {a4}, a2, v2);
    HoldsKept(m3, m4, {}, {a4}, a3, v3);
  }

  lemma ThenWrite(m0: seq<Cell>, m1: seq<Cell>, m2: seq<Cell>, words: set<int>, a: int)
    requires SameOutside(m0, m1, {}, words) && SameOutside(m1, m2, {}, {a})
    ensures SameOutside(m0, m2, {}, words + {a})
  {
    SameOutsideTransitive(m0, m1, m2, {}, words, {}, {a});
    SameOutsideWeaken(m0, m2, {} + {}, words + {a}, {}, words + {a});
  }

  /** After the tags of b are written every block of u has its tags. */
  lemma BothTags(m0: seq<Cell>, m2: seq<Cell>, m3: seq<Cell>, t: Laid, u: Shape, b: int, nodes: set<int>)
    requires b in u.free && b in u.span && b in t.span && FREE_HEADER <= u.span[b]
    requires forall a :: a in u.span && a != b ==> a + u.span[a] <= b || b + u.span[b] <= a
    requires forall n :: n in nodes ==> n == SENTINEL || n in t.span
    requires forall a :: a in u.span && a != b ==>
               a in t.span && u.span[a] == t.span[a] && (a in u.free <==> a in t.free) && TagsOf(m0, t, a)
    requires SameOutside(m0, m2, nodes, {b + FORWARD}) && Holds(m2, b + FORWARD, u.span[b] - BLOCK_HEADER)
    requires SameOutside(m2, m3, {}, {b + u.span[b]}) && Holds(m3, b + u.span[b], u.span[b])
    ensures SameOutside(m0, m3, nodes, {b + FORWARD, b + u.span[b]})
    ensures forall a :: a in u.span ==> TagsOf(m3, u, a)
  {
    var words := {b + FORWARD, b + u.span[b]};
    SameOutsideTransitive(m0, m2, m3, nodes, {b + FORWARD}, {}, {b + u.span[b]});
    SameOutsideWeaken(m0, m3, nodes + {}, {b + FORWARD} + {b + u.span[b]}, nodes, words);
    HoldsKept(m2, m3, {}, {b + u.span[b]}, b + FORWARD, u.span[b] - BLOCK_HEADER);
    TagsKept(m0, m3, t, u, b, nodes, words);
  }

  /** The words free writes besides links: the tags of b. */
  ghost predicate TagWords(t: Shape, b: int, words: set<int>) {
    forall w :: w in words ==> w == b + FORWARD || (b + PREV <= w && (w in t.span || w == t.end))
  }

  /** What the second half of free leaves alone besides tags and links. */
  lemma FreedFrame(m0: seq<Cell>, m3: seq<Cell>, t: Joined, b: int, nodes: set<int>, words: set<int>)
    requires b == t.rover && HeaderWords(m0, t)
    requires nodes == {} || nodes == NodeSet(Nodes(t.ring))
    requires SameOutside(m0, m3, nodes, words) && TagWords(t, b, words)
    ensures HeaderWords(m3, t)
    ensures PayloadsKept(m0, m3, t, Live(t))
  {
    NodesInside(t);
    HeaderWordsKept(m0, m3, nodes, words, t.end + 4);
    HoldsKept(m0, m3, nodes, words, FREE_LIST_POS, t.rover);
    PayloadsUntouched(m0, m3, t, Live(t), nodes, words);
  }

  /** The end of free when the next block is live. */
  lemma TaggedNext(m0: seq<Cell>, m2: seq<Cell>, m3: seq<Cell>, t: Joined, b: int)
    requires b == t.rover && RepresentsExcept(m0, t, b)
    requires b + t.span[b] < t.end && b + t.span[b] !in t.free
    requires SameOutside(m0, m2, {}, {b + FORWARD}) && Holds(m2, b + FORWARD, t.span[b] - BLOCK_HEADER)
    requires SameOutside(m2, m3, {}, {b + t.span[b]}) && Holds(m3, b + t.span[b], t.span[b])
    ensures Represents(m3, JoinNext(t, b))
    ensures PayloadsKept(m0, m3, t, Live(t))
  {
    hide Ringed, Links, Holds, IndexOf;
    var words := {b + FORWARD, b + t.span[b]};
    EndKnown(t, b);
    BothTags(m0, m2, m3, t, t, b, {});
    FreedFrame(m0, m3, t, b, {}, words);
    NodesInside(t);
    LinksKept(m0, m3, Nodes(t.ring), words);
  }

  lemma WithoutInside(t: Laid, n: int)
    requires n in t.free
    ensures forall x :: x in Nodes(Without(t.ring, n)) ==> x == SENTINEL || (x in t.span && x in t.free && x != n)
  {
    WithoutMembers(t.free, t.ring, n);
    assert Nodes(Without(t.ring, n)) == [SENTINEL] + Without(t.ring, n);
  }

  /** The end of free when the next block is free too. */
  lemma MergedNext(m0: seq<Cell>, m1: seq<Cell>, m2: seq<Cell>, m3: seq<Cell>, t: Joined, b: int)
    requires b == t.rover && RepresentsExcept(m0, t, b)
    requires b + t.span[b] < t.end && b + t.span[b] in t.free
    requires Links(m1, Nodes(Without(t.ring, b + t.span[b]))) && SameOutside(m0, m1, NodeSet(Nodes(t.ring)), {})
    requires var size := t.span[b] + t.span[b + t.span[b]];
             && SameOutside(m1, m2, {}, {b + FORWARD}) && Holds(m2, b + FORWARD, size - BLOCK_HEADER)
             && SameOutside(m2, m3, {}, {b + size}) && Holds(m3, b + size, size)
    ensures Represents(m3, JoinNext(t, b))
    ensures PayloadsKept(m0, m3, t, Live(t))
  {
    hide Ringed, IndexOf, Without, Successor, Holds;
    var size := t.span[b] + t.span[b + t.span[b]];
    var nodes := NodeSet(Nodes(t.ring));
    var words := {b + FORWARD, b + size};
    EndKnown(t, b);
    assert EndOf(t.span, b + t.span[b]) == b + size;
    MergedTags(m0, m1, m2, m3, t, b, size);
    FreedFrame(m0, m3, t, b, nodes, words);
    ThenWrite(m1, m2, m3, {b + FORWARD}, b + size);
    SameOutsideWeaken(m1, m3, {}, {b + FORWARD} + {b + size}, {}, words);
    WithoutInside(t, b + t.span[b]);
    LinksKept(m1, m3, Nodes(Without(t.ring, b + t.span[b])), words);
  }

  lemma MergedTags(m0: seq<Cell>, m1: seq<Cell>, m2: seq<Cell>, m3: seq<Cell>, t: Joined, b: int, size: int)
    requires b == t.rover && forall a :: a in t.span && a != b ==> TagsOf(m0, t, a)
    requires b + t.span[b] < t.end && b + t.span[b] in t.free && size == t.span[b] + t.span[b + t.span[b]]
    requires SameOutside(m0, m1, NodeSet(Nodes(t.ring)), {})
    requires SameOutside(m1, m2, {}, {b + FORWARD}) && Holds(m2, b + FORWARD, size - BLOCK_HEADER)
    requires SameOutside(m2, m3, {}, {b + size}) && Holds(m3, b + size, size)
    ensures SameOutside(m0, m3, NodeSet(Nodes(t.ring)), {b + FORWARD, b + size})
    ensures forall a :: a in JoinNext(t, b).span ==> TagsOf(m3, JoinNext(t, b), a)
  {
    hide Ringed, Links, HeaderWords, IndexOf, Without, Holds;
    var nodes := NodeSet(Nodes(t.ring));
    NodesInside(t);
    SameOutsideTransitive(m0, m1, m2, nodes, {}, {}, {b + FORWARD});
    SameOutsideWeaken(m0, m2, nodes + {}, {} + {b + FORWARD}, nodes, {b + FORWARD});
    BothTags(m0, m2, m3, t, JoinNext(t, b), b, nodes);
  }

  /** The end of free when the block is the last of the heap. */
  lemma Truncated(m0: seq<Cell>, m1: seq<Cell>, m2: seq<Cell>, m3: seq<Cell>, t: Joined, b: int)
    requires b == t.rover && RepresentsExcept(m0, t, b)
    requires b + t.span[b] == t.end
    requires Links(m1, Nodes(Without(t.ring, b))) && SameOutside(m0, m1, NodeSet(Nodes(t.ring)), {})
    requires SameOutside(m1, m2, {}, {SIZE}) && Holds(m2, SIZE, b + 4)
    requires SameOutside(m2, m3, {}, {FREE_LIST_POS})
    requires Holds(m3, FREE_LIST_POS, After(Nodes(Without(t.ring, b)), 0))
    ensures Represents(m3, JoinNext(t, b))
    ensures PayloadsKept(m0, m3, t, Live(t))
  {
    var words := {SIZE, FREE_LIST_POS};
    HoldsKept(m2, m3, {}, {FREE_LIST_POS}, SIZE, b + 4);
    ThenWrite(m1, m2, m3, {SIZE}, FREE_LIST_POS);
    SameOutsideWeaken(m1, m3, {}, {SIZE} + {FREE_LIST_POS}, {}, words);
    WithoutInside(t, b);
    LinksKept(m1, m3, Nodes(Without(t.ring, b)), words);
    TruncatedTags(m0, m1, m3, t, b);
    FirstNode(Without(t.ring, b));
  }

  lemma FirstNode(ring: seq<int>)
    ensures After(Nodes(ring), 0) == Successor(ring, SENTINEL)
  {
  }

  lemma TruncatedTags(m0: seq<Cell>, m1: seq<Cell>, m3: seq<Cell>, t: Joined, b: int)
    requires b == t.rover && HeaderWords(m0, t) && forall a :: a in t.span && a != b ==> TagsOf(m0, t, a)
    requires b + t.span[b] == t.end
    requires SameOutside(m0, m1, NodeSet(Nodes(t.ring)), {})
    requires SameOutside(m1, m3, {}, {SIZE, FREE_LIST_POS})
    ensures forall a :: a in t.span - {b} ==> TagsOf(m3, JoinNext(t, b), a)
    ensures Holds(m3, SENTINEL + FORWARD, 0) && Holds(m3, BARRIER, -1)
    ensures PayloadsKept(m0, m3, t, Live(t))
  {
    var nodes := NodeSet(Nodes(t.ring));
    var words := {SIZE, FREE_LIST_POS};
    SameOutsideTransitive(m0, m1, m3, nodes, {}, {}, words);
    SameOutsideWeaken(m0, m3, nodes + {}, {} + words, nodes, words);
    NodesInside(t);
    HeaderWordsKept(m0, m3, nodes, words, t.end + 4);
    TagsKept(m0, m3, t, JoinNext(t, b), b, nodes, words);
    PayloadsUntouched(m0, m3, t, Live(t), nodes, words);
  }

  /** The bytes after a tail has been cut off, before the tail has its own tags. */
  lemma Carved(m0: seq<Cell>, m1: seq<Cell>, m2: seq<Cell>, m3: seq<Cell>, s: Heap, b: int, size: int)
    requires Represents(m0, s) && b in s.free && size >= 8
    requires s.span[b] - BLOCK_HEADER >= size + FREE_HEADER
    requires SameOutside(m0, m1, {}, {FREE_LIST_POS}) && Holds(m1, FREE_LIST_POS, b)
    requires var offs := s.span[b] - BLOCK_HEADER - size;
             && SameOutside(m1, m2, {}, {b + FORWARD}) && Holds(m2, b + FORWARD, offs - BLOCK_HEADER)
             && SameOutside(m2, m3, {}, {b + offs}) && Holds(m3, b + offs, offs)
    ensures var bp := b + s.span[b] - BLOCK_HEADER - size; RepresentsExcept(m3, Split(s, b, size), bp)
    ensures PayloadsKept(m0, m3, s, Live(s))
  {
    var offs := s.span[b] - BLOCK_HEADER - size;
    ThreeWrites(m0, m1, m2, m3, FREE_LIST_POS, b + FORWARD, b + offs, b, offs - BLOCK_HEADER);
    CarvedImage(m0, m3, s, b, size, offs);
  }

  lemma CarvedImage(m0: seq<Cell>, m3: seq<Cell>, s: Heap, b: int, size: int, offs: int)
    requires Represents(m0, s) && b in s.free && offs == s.span[b] - BLOCK_HEADER - size
    requires size >= 8 && FREE_HEADER <= offs && SameOutside(m0, m3, {}, {FREE_LIST_POS, b + FORWARD, b + offs})
    requires Holds(m3, FREE_LIST_POS, b) && Holds(m3, b + FORWARD, offs - BLOCK_HEADER) && Holds(m3, b + offs, offs)
    ensures RepresentsExcept(m3, Split(s, b, size), b + s.span[b] - BLOCK_HEADER - size)
    ensures PayloadsKept(m0, m3, s, Live(s))
  {
    CarvedRest(m0, m3, s, b, offs, {FREE_LIST_POS, b + FORWARD, b + offs});
    SplitTags(m3, s, b, size, offs);
  }

  lemma ThreeWrites(m0: seq<Cell>, m1: seq<Cell>, m2: seq<Cell>, m3: seq<Cell>, a1: int, a2: int, a3: int, v1: int,
                    v2: int)
    requires SameOutside(m0, m1, {}, {a1}) && Holds(m1, a1, v1)
    requires SameOutside(m1, m2, {}, {a2}) && Holds(m2, a2, v2)
    requires SameOutside(m2, m3, {}, {a3})
    requires a1 + 4 <= a2 && a2 + 4 <= a3
    ensures SameOutside(m0, m3, {}, {a1, a2, a3}) && Holds(m3, a1, v1) && Holds(m3, a2, v2)
  {
    ThenWrite(m0, m1, m2, {a1}, a2);
    ThenWrite(m0, m2, m3, {a1} + {a2}, a3);
    SameOutsideWeaken(m0, m3, {}, {a1} + {a2} + {a3}, {}, {a1, a2, a3});
    HoldsKept(m1, m2, {}, {a2}, a1, v1);
    HoldsKept(m2, m3, {}, {a3}, a1, v1);
    HoldsKept(m2, m3, {}, {a3}, a2, v2);
  }

  lemma SplitTags(m: seq<Cell>, s: Heap, b: int, size: int, offs: int)
    requires b in s.free && offs == s.span[b] - BLOCK_HEADER - size && size >= 8 && FREE_HEADER <= offs
    requires Holds(m, b + FORWARD, offs - BLOCK_HEADER) && Holds(m, b + offs, offs)
    requires forall a :: a in s.span && a != b ==> TagsOf(m, s, a)
    ensures var u := Split(s, b, size);
            forall a :: a in u.span && a != b + offs ==> TagsOf(m, u, a)
  {
    var u := Split(s, b, size);
    forall a | a in u.span && a != b + offs
      ensures TagsOf(m, u, a)
    {
      if a != b {
        assert TagsOf(m, s, a);
      }
    }
  }

  lemma CarvedRest(m0: seq<Cell>, m3: seq<Cell>, s: Heap, b: int, offs: int, words: set<int>)
    requires Represents(m0, s) && b in s.free && FREE_HEADER <= offs <= s.span[b] - FREE_HEADER
    requires words == {FREE_LIST_POS, b + FORWARD, b + offs} && SameOutside(m0, m3, {}, words)
    ensures Holds(m3, SENTINEL + FORWARD, 0) && Holds(m3, BARRIER, -1) && Holds(m3, SIZE, s.end + 4)
    ensures Links(m3, Nodes(s.ring))
    ensures forall a :: a in s.span && a != b ==> TagsOf(m3, s, a)
    ensures PayloadsKept(m0, m3, s, Live(s))
  {
    HeaderWordsKept(m0, m3, {}, words, s.end + 4);
    NodesInside(s);
    LinksKept(m0, m3, Nodes(s.ring), words);
    TagsKept(m0, m3, s, s, b, {}, words);
    PayloadsUntouched(m0, m3, s, Live(s), {}, words);
  }

  lemma SuccessorInList(ring: seq<int>, n: int)
    requires n in ring && n != SENTINEL
    ensures n in Nodes(ring)
    ensures Successor(ring, n) == After(Nodes(ring), IndexOf(ring, n) + 1) && Successor(ring, n) in Nodes(ring)
  {
    assert Nodes(ring)[1..] == ring;
    assert Nodes(ring)[IndexOf(ring, n) + 1] == n;
  }

  lemma TookWhole(m0: seq<Cell>, m1: seq<Cell>, m2: seq<Cell>, s: Heap, b: int)
    requires Represents(m0, s) && b in s.free && b in Nodes(s.ring)
    requires Links(m1, Nodes(Without(s.ring, b))) && SameOutside(m0, m1, NodeSet(Nodes(s.ring)), {})
    requires SameOutside(m1, m2, {}, {FREE_LIST_POS}) && Holds(m2, FREE_LIST_POS, Successor(s.ring, b))
    ensures RepresentsExcept(m2, Whole(s, b), b)
    ensures PayloadsKept(m0, m2, s, Live(s))
  {
    WithoutInside(s, b);
    LinksKept(m1, m2, Nodes(Without(s.ring, b)), {FREE_LIST_POS});
    TookWholeRest(m0, m1, m2, s, b);
  }

  lemma TookWholeRest(m0: seq<Cell>, m1: seq<Cell>, m2: seq<Cell>, s: Heap, b: int)
    requires Represents(m0, s) && b in s.free && b in Nodes(s.ring)
    requires SameOutside(m0, m1, NodeSet(Nodes(s.ring)), {}) && SameOutside(m1, m2, {}, {FREE_LIST_POS})
    ensures Holds(m2, SENTINEL + FORWARD, 0) && Holds(m2, BARRIER, -1) && Holds(m2, SIZE, s.end + 4)
    ensures forall a :: a in s.span && a != b ==> TagsOf(m2, Whole(s, b), a)
    ensures PayloadsKept(m0, m2, s, Live(s))
  {
    hide Ringed, IndexOf, Without, Successor, Holds;
    var nodes := NodeSet(Nodes(s.ring));
    SameOutsideTransitive(m0, m1, m2, nodes, {}, {}, {FREE_LIST_POS});
    SameOutsideWeaken(m0, m2, nodes + {}, {} + {FREE_LIST_POS}, nodes, {FREE_LIST_POS});
    NodesInside(s);
    HeaderWordsKept(m0, m2, nodes, {FREE_LIST_POS}, s.end + 4);
    TagsKept(m0, m2, s, Whole(s, b), b, nodes, {FREE_LIST_POS});
    PayloadsUntouched(m0, m2, s, Live(s), nodes, {FREE_LIST_POS});
  }

  lemma Extended(m0: seq<Cell>, m1: seq<Cell>, s: Heap, size: int)
    requires Represents(m0, s) && size >= 8 && s.end + 4 + size + BLOCK_HEADER <= |m0|
    requires SameOutside(m0, m1, {}, {SIZE}) && Holds(m1, SIZE, s.end + 4 + size + BLOCK_HEADER)
    ensures RepresentsExcept(m1, Grow(s, size), s.end)
    ensures PayloadsKept(m0, m1, s, Live(s))
  {
    HeaderWordsKept(m0, m1, {}, {SIZE}, 0);
    HoldsKept(m0, m1, {}, {SIZE}, FREE_LIST_POS, s.rover);
    NodesInside(s);
    LinksKept(m0, m1, Nodes(s.ring), {SIZE});
    TagsKept(m0, m1, s, Grow(s, size), s.end, {}, {SIZE});
    PayloadsUntouched(m0, m1, s, Live(s), {}, {SIZE});
  }
}
