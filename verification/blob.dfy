/** src/gigabase/blob.cpp: a blob is a chain of segments, written and read through iterators,
    page by page. The page pool is a sequence of bytes, the object index a map from object
    identifiers to positions, the allocation bitmap a set of quanta, and record headers are
    kept in a map by position. */
module Blob {
  import opened Memory
  import Sets

  const PAGE := 8192          // dbPageSize
  const QUANTUM := 64         // dbAllocationQuantum
  const HEADER := 12          // sizeof(dbRecord)

  datatype Record = Record(size: nat, next: nat)

  /** DOALIGN to pages. */
  function Pages(n: nat): (r: nat)
    ensures r % PAGE == 0 && n <= r < n + PAGE
  {
    (n + PAGE - 1) / PAGE * PAGE
  }

  /** The first quantum at or after a position. */
  function QuantumUp(n: nat): (q: nat)
    ensures n <= q * QUANTUM < n + QUANTUM
  {
    (n + QUANTUM - 1) / QUANTUM
  }

  /** What allocate rounds a size up to. */
  function Rounded(n: nat): nat {
    QuantumUp(n) * QUANTUM
  }

  /** The size takes whole pages, so that allocate aligns it to pages. */
  predicate Whole(n: nat) {
    Rounded(n) % PAGE == 0
  }

  /** The quanta that an extent takes. */
  function Extent(at: nat, size: nat): set<nat> {
    Range(at / QUANTUM, at / QUANTUM + QuantumUp(size))
  }

  function Range(lo: nat, hi: nat): (s: set<nat>)
    ensures forall q :: q in s <==> lo <= q < hi
    decreases hi - lo
  {
    if lo >= hi then {} else Range(lo, hi - 1) + {hi - 1}
  }

  function Zeros(n: nat): (s: seq<Byte>)
    ensures |s| == n
  {
    seq(n, _ => 0)
  }

  class Database {
    var pool: seq<Byte>
    var index: map<nat, nat>         // the position of each object
    var records: map<nat, Record>    // the header at each position
    var used: set<nat>               // the quanta in use
    var limit: nat                   // above all object identifiers

    ghost predicate Valid()
      reads this
    {
      && (forall q :: q in used ==> q * QUANTUM <= |pool| - QUANTUM)
      && 0 < limit && (forall o :: o in index ==> 0 < o < limit)
    }

    function Now(): Disk
      reads this
    {
      Disk(pool, index, records, used)
    }

    constructor ()
      ensures Valid() && index == map[] && used == {}
    {
      pool, index, records, used, limit := [], map[], map[], {}, 1;
    }

    /** allocate: any free place that it may choose. */
    method Allocate(size: nat) returns (at: nat)
      requires Valid() && size > 0
      modifies this`pool, this`used
      ensures Valid() && MayAllocate(old(Now()), size, at) && at + size <= |pool|
      ensures used == old(used) + Extent(at, size)
      ensures old(pool) <= pool
    {
      var choice: int := *;
      hide MayAllocate, Extent, Pages, Rounded, Zeros;
      at := if choice > 0 && MayAllocate(Now(), size, choice) then choice else Pages(|pool| + 1);
      BehindAll(Now(), size);
      Placed(Now(), size, at);
      pool := pool + Zeros(at + Rounded(size));
      used := used + Extent(at, size);
    }

    /** allocateId: any identifier that is not in use. */
    method AllocateId() returns (oid: nat)
      requires Valid()
      modifies this`limit
      ensures Valid() && oid > 0 && oid !in index && oid < limit
    {
      var choice: int := *;
      oid := if choice > 0 && choice !in index then choice else limit;
      limit := limit + oid + 1;
    }

    /** A new object for a segment, linked from the header at position last. */
    method AppendSegment(last: nat, size: nat, ghost segs: seq<Segment>) returns (oid: nat, at: nat)
      requires Valid() && size >= HEADER && Whole(size) && last in records
      requires segs != [] && segs[|segs| - 1].pos == last && records[last].size == segs[|segs| - 1].size
      modifies this
      ensures Valid() && Extended(old(Now()), Now(), segs, Segment(oid, at, size))
    {
      hide Extent;
      oid := AllocateId();
      records := records[last := records[last].(next := oid)];
      at := Allocate(size);
      assert at % PAGE == 0;       // as the source asserts
      index := index[oid := at];
      records := records[at := Record(size, 0)];
    }

    /** free. */
    method Free(at: nat, size: nat)
      requires Valid() && at != 0 && at % QUANTUM == 0
      modifies this`used
      ensures Valid() && used == old(used) - Extent(at, size)
    {
      used := used - Extent(at, size);
    }

    /** memcpy into the page pool. */
    method Put(at: nat, bytes: seq<Byte>)
      requires Valid() && at + |bytes| <= |pool|
      modifies this`pool
      ensures Valid() && pool == old(pool)[..at] + bytes + old(pool)[at + |bytes|..]
    {
      pool := pool[..at] + bytes + pool[at + |bytes|..];
    }
  }

  lemma ExtentBounds(at: nat, size: nat)
    requires at % QUANTUM == 0
    ensures forall q :: q in Extent(at, size) ==> at <= q * QUANTUM <= at + Rounded(size) - QUANTUM
  {
    hide QuantumUp;
    assert at == at / QUANTUM * QUANTUM;
  }

  /** What allocate may return: a place that is free, and at the start of a page if the size
      takes whole pages. */
  predicate MayAllocate(d: Disk, size: nat, at: nat) {
    && at > 0 && at % QUANTUM == 0 && (Whole(size) ==> at % PAGE == 0)
    && Extent(at, size) !! d.used
  }

  lemma BehindAll(d: Disk, size: nat)
    requires forall q :: q in d.used ==> q * QUANTUM <= |d.pool| - QUANTUM
    ensures MayAllocate(d, size, Pages(|d.pool| + 1))
  {
    var at := Pages(|d.pool| + 1);
    assert at == at / PAGE * 128 * QUANTUM;
    hide Pages;
    PastTheEnd(d, size, at);
  }

  lemma Placed(d: Disk, size: nat, at: nat)
    requires MayAllocate(d, size, at)
    ensures at > 0 && size <= Rounded(size)
    ensures forall q :: q in Extent(at, size) ==> q * QUANTUM <= at + Rounded(size) - QUANTUM
  {
    ExtentBounds(at, size);
  }

  lemma PastTheEnd(d: Disk, size: nat, at: nat)
    requires forall q :: q in d.used ==> q * QUANTUM <= |d.pool| - QUANTUM
    requires at > 0 && at >= |d.pool| && at % QUANTUM == 0 && (Whole(size) ==> at % PAGE == 0)
    ensures MayAllocate(d, size, at)
  {
    ExtentBounds(at, size);
    hide Extent, Whole;
    if Extent(at, size) * d.used != {} {
      var q := Sets.Pick(Extent(at, size) * d.used);
    }
  }

  // ----- the chain of segments

  datatype Segment = Segment(oid: nat, pos: nat, size: nat)

  /** The database's fields at one moment. */
  datatype Disk = Disk(pool: seq<Byte>, index: map<nat, nat>, records: map<nat, Record>, used: set<nat>)

  function NextOid(segs: seq<Segment>, i: nat): nat
    requires i < |segs|
  {
    if i + 1 < |segs| then segs[i + 1].oid else 0
  }

  ghost predicate SegmentAt(d: Disk, g: Segment, next: nat) {
    && g.oid in d.index && d.index[g.oid] == g.pos
    && g.pos in d.records && d.records[g.pos] == Record(g.size, next)
    && 0 < g.pos && g.pos % PAGE == 0 && HEADER <= g.size && g.pos + g.size <= |d.pool|
    && Extent(g.pos, g.size) <= d.used
  }

  ghost predicate Separate(g: Segment, h: Segment) {
    g.oid != h.oid && Extent(g.pos, g.size) !! Extent(h.pos, h.size)
  }

  /** Segments linked by their headers, in space of their own. */
  ghost predicate Chain(d: Disk, segs: seq<Segment>) {
    && segs != []
    && (forall i :: 0 <= i < |segs| ==> SegmentAt(d, segs[i], NextOid(segs, i)))
    && (forall i, j :: 0 <= i < j < |segs| ==> Separate(segs[i], segs[j]))
  }

  /** A segment's bytes. */
  function Piece(pool: seq<Byte>, g: Segment): seq<Byte> {
    if HEADER <= g.size && g.pos + g.size <= |pool| then pool[g.pos + HEADER..g.pos + g.size] else []
  }

  /** What a chain of segments holds. */
  function Data(pool: seq<Byte>, segs: seq<Segment>): seq<Byte> {
    if segs == [] then [] else Piece(pool, segs[0]) + Data(pool, segs[1..])
  }

  function Space(segs: seq<Segment>): set<nat> {
    if segs == [] then {} else Extent(segs[0].pos, segs[0].size) + Space(segs[1..])
  }

  lemma {:induction false} DataAdd(pool: seq<Byte>, segs: seq<Segment>, g: Segment)
    ensures Data(pool, segs + [g]) == Data(pool, segs) + Piece(pool, g)
  {
    if segs == [] {
      assert segs + [g] == [g] && [g][1..] == [];
    } else {
      assert (segs + [g])[1..] == segs[1..] + [g];
      DataAdd(pool, segs[1..], g);
      assert Piece(pool, segs[0]) + (Data(pool, segs[1..]) + Piece(pool, g)) == Data(pool, segs) + Piece(pool, g);
    }
  }

  lemma {:induction false} DataSame(pool: seq<Byte>, pool': seq<Byte>, segs: seq<Segment>)
    requires forall i :: 0 <= i < |segs| ==> Piece(pool, segs[i]) == Piece(pool', segs[i])
    ensures Data(pool, segs) == Data(pool', segs)
  {
    if segs != [] {
      forall i | 0 <= i < |segs[1..]|
        ensures Piece(pool, segs[1..][i]) == Piece(pool', segs[1..][i])
      {
        assert segs[1..][i] == segs[i + 1];
      }
      DataSame(pool, pool', segs[1..]);
    }
  }

  lemma InExtent(at: nat, size: nat, b: nat)
    requires at % PAGE == 0 && at <= b < at + size
    ensures b / QUANTUM in Extent(at, size)
  {
    hide Range;
    UpShift(at, size);
    QuantumBounds(b);
  }

  lemma QuantumBounds(b: nat)
    ensures b / QUANTUM * QUANTUM <= b < (b / QUANTUM + 1) * QUANTUM
  {
  }

  lemma DivShift(a: nat, y: nat)
    ensures (a * QUANTUM + y) / QUANTUM == a + y / QUANTUM
  {
  }

  lemma UpShift(at: nat, x: nat)
    requires at % PAGE == 0
    ensures QuantumUp(at + x) == at / QUANTUM + QuantumUp(x)
    ensures at == at / QUANTUM * QUANTUM
  {
    assert at == at / PAGE * 128 * QUANTUM;
    DivShift(at / PAGE * 128, 0);
    DivShift(at / PAGE * 128, x + QUANTUM - 1);
  }

  /** Segments in different quanta have no byte in common. */
  lemma BytesApart(g: Segment, h: Segment)
    requires Separate(g, h) && g.pos % PAGE == 0 && h.pos % PAGE == 0 && g.size > 0 && h.size > 0
    ensures g.pos + g.size <= h.pos || h.pos + h.size <= g.pos
  {
    var b := if g.pos < h.pos then h.pos else g.pos;
    if g.pos <= b < g.pos + g.size && h.pos <= b < h.pos + h.size {
      InExtent(g.pos, g.size, b);
      InExtent(h.pos, h.size, b);
    }
  }

  /** Writing into segment k leaves the other segments' bytes alone. */
  lemma WriteKeepsData(d: Disk, segs: seq<Segment>, k: nat, pos: nat, bytes: seq<Byte>)
    requires Chain(d, segs) && k < |segs|
    requires segs[k].pos + HEADER <= pos && pos + |bytes| <= segs[k].pos + segs[k].size
    ensures var pool := d.pool[..pos] + bytes + d.pool[pos + |bytes|..];
            && |pool| == |d.pool|
            && Data(pool, segs[..k]) == Data(d.pool, segs[..k])
            && pool[segs[k].pos + HEADER..pos + |bytes|] == d.pool[segs[k].pos + HEADER..pos] + bytes
  {
    hide Extent;
    assert SegmentAt(d, segs[k], NextOid(segs, k));
    var pool := d.pool[..pos] + bytes + d.pool[pos + |bytes|..];
    forall i | 0 <= i < |segs[..k]|
      ensures Piece(d.pool, segs[..k][i]) == Piece(pool, segs[..k][i])
    {
      assert SegmentAt(d, segs[i], NextOid(segs, i)) && Separate(segs[i], segs[k]);
      BytesApart(segs[i], segs[k]);
      PieceBeside(d.pool, segs[i], pos, bytes);
    }
    hide Chain, Separate, SegmentAt, Piece;
    DataSame(d.pool, pool, segs[..k]);
  }

  lemma PieceBeside(pool: seq<Byte>, g: Segment, pos: nat, bytes: seq<Byte>)
    requires pos + |bytes| <= |pool| && (g.pos + g.size <= pos || pos + |bytes| <= g.pos)
    ensures Piece(pool[..pos] + bytes + pool[pos + |bytes|..], g) == Piece(pool, g)
  {
  }

  /** The database after a new segment g has been put behind the last one. */
  ghost predicate Extended(d: Disk, d': Disk, segs: seq<Segment>, g: Segment)
    requires segs != []
  {
    var last := segs[|segs| - 1];
    && d.pool <= d'.pool
    && d'.records == d.records[last.pos := Record(last.size, g.oid)][g.pos := Record(g.size, 0)]
    && d'.index == d.index[g.oid := g.pos] && g.oid !in d.index && g.oid > 0
    && Extent(g.pos, g.size) !! d.used && d'.used == d.used + Extent(g.pos, g.size)
    && 0 < g.pos && g.pos % PAGE == 0 && HEADER <= g.size && g.pos + g.size <= |d'.pool|
  }

  lemma ExtendedSegment(d: Disk, d': Disk, segs: seq<Segment>, g: Segment, i: nat)
    requires Chain(d, segs) && Extended(d, d', segs, g) && i < |segs|
    ensures SegmentAt(d', segs[i], NextOid(segs + [g], i)) && Separate(segs[i], g)
    ensures Piece(d.pool, segs[i]) == Piece(d'.pool, segs[i])
  {
    hide Extent;
    assert SegmentAt(d, segs[i], NextOid(segs, i));
    BytesApart(segs[i], g);
    if i < |segs| - 1 {
      assert Separate(segs[i], segs[|segs| - 1]);
      assert SegmentAt(d, segs[|segs| - 1], 0);
      BytesApart(segs[i], segs[|segs| - 1]);
    }
  }

  lemma ChainGrows(d: Disk, d': Disk, segs: seq<Segment>, g: Segment)
    requires Chain(d, segs) && Extended(d, d', segs, g)
    ensures Chain(d', segs + [g]) && Data(d'.pool, segs) == Data(d.pool, segs)
  {
    hide Extent, Separate, Piece;
    var longer := segs + [g];
    forall i | 0 <= i < |segs|
      ensures SegmentAt(d', longer[i], NextOid(longer, i)) && Separate(longer[i], g)
              && Piece(d.pool, segs[i]) == Piece(d'.pool, segs[i])
    {
      ExtendedSegment(d, d', segs, g, i);
    }
    forall i, j | 0 <= i < j < |longer|
      ensures Separate(longer[i], longer[j])
    {
      if j < |segs| {
        assert Separate(segs[i], segs[j]);
      }
    }
    DataSame(d.pool, d'.pool, segs);
  }

  // ----- everything else

  /** The quanta in use besides a chain's are still in use, with the same bytes and headers. */
  ghost predicate Untouched(d: Disk, d': Disk, space: set<nat>) {
    && |d.pool| <= |d'.pool|
    && (forall q :: q in d.used - space ==> q in d'.used)
    && (forall i :: 0 <= i < |d.pool| && i / QUANTUM in d.used - space ==> d'.pool[i] == d.pool[i])
    && (forall p :: p in d.records && p / QUANTUM in d.used - space ==>
          p in d'.records && d'.records[p] == d.records[p])
    && (forall o :: o in d.index && d.index[o] / QUANTUM in d.used - space ==>
          o in d'.index && d'.index[o] == d.index[o])
  }

  /** So another blob is still there, with the same data. */
  lemma OtherBlobKept(d: Disk, d': Disk, segs: seq<Segment>, space: set<nat>)
    requires Chain(d, segs) && Untouched(d, d', space) && Space(segs) !! space
    ensures Chain(d', segs) && Data(d'.pool, segs) == Data(d.pool, segs)
  {
    StartsAway(d, segs);
    forall i | 0 <= i < |segs|
      ensures SegmentAt(d', segs[i], NextOid(segs, i)) && Piece(d.pool, segs[i]) == Piece(d'.pool, segs[i])
    {
      assert segs[i] in segs;
      OtherSegmentKept(d, d', segs[i], NextOid(segs, i), space);
    }
    hide SegmentAt, Extent, Piece, Untouched, Space;
    DataSame(d.pool, d'.pool, segs);
    assert forall i, j :: 0 <= i < j < |segs| ==> Separate(segs[i], segs[j]);
  }

  lemma OtherSegmentKept(d: Disk, d': Disk, g: Segment, next: nat, space: set<nat>)
    requires SegmentAt(d, g, next) && Untouched(d, d', space) && Extent(g.pos, g.size) !! space
    ensures SegmentAt(d', g, next) && Piece(d.pool, g) == Piece(d'.pool, g)
  {
    hide Extent;
    InExtent(g.pos, g.size, g.pos);
    forall i | g.pos <= i < g.pos + g.size
      ensures d'.pool[i] == d.pool[i]
    {
      InExtent(g.pos, g.size, i);
    }
  }

  /** A chain lies in the space it had, and in space that was free. */
  ghost predicate Away(d: Disk, segs: seq<Segment>, space: set<nat>) {
    forall g :: g in segs ==> Extent(g.pos, g.size) !! d.used - space
  }

  lemma {:induction false} StartsAway(d: Disk, segs: seq<Segment>)
    ensures forall g :: g in segs ==> Extent(g.pos, g.size) <= Space(segs)
    ensures Away(d, segs, Space(segs)) && Untouched(d, d, Space(segs))
  {
    hide Extent;
    if segs != [] {
      StartsAway(d, segs[1..]);
    }
  }

  lemma WriteUntouched(d0: Disk, d: Disk, segs: seq<Segment>, k: nat, space: set<nat>, pos: nat, bytes: seq<Byte>)
    requires Untouched(d0, d, space) && Away(d0, segs, space) && k < |segs| && segs[k].pos % PAGE == 0
    requires segs[k].pos <= pos && pos + |bytes| <= segs[k].pos + segs[k].size && pos + |bytes| <= |d.pool|
    ensures Untouched(d0, d.(pool := d.pool[..pos] + bytes + d.pool[pos + |bytes|..]), space)
  {
    hide Extent;
    var pool := d.pool[..pos] + bytes + d.pool[pos + |bytes|..];
    forall i | 0 <= i < |d0.pool| && i / QUANTUM in d0.used - space
      ensures pool[i] == d0.pool[i]
    {
      if pos <= i < pos + |bytes| {
        assert segs[k] in segs;
        InExtent(segs[k].pos, segs[k].size, i);
      }
    }
  }

  /** What is in use is what was, and the chain. */
  ghost predicate Taken(d: Disk, d': Disk, segs: seq<Segment>) {
    d'.used == d.used + Space(segs)
  }

  /** A blob being written lies in the space it had when the database was d0, and in space that
      was free, and everything else is as it was. */
  ghost predicate Beside(d0: Disk, d: Disk, segs: seq<Segment>, space: set<nat>) {
    Untouched(d0, d, space) && Away(d0, segs, space) && Taken(d0, d, segs) && Named(d0, d, segs)
  }

  lemma GrowBeside(d0: Disk, d: Disk, d': Disk, segs: seq<Segment>, g: Segment, space: set<nat>)
    requires Beside(d0, d, segs, space) && Chain(d, segs) && Extended(d, d', segs, g)
    ensures Beside(d0, d', segs + [g], space)
  {
    hide Untouched, Away, Taken, Named, Extended;
    GrowUntouched(d0, d, d', segs, g, space);
    GrowTaken(d0, d, d', segs, g);
  }

  lemma WriteBeside(d0: Disk, d: Disk, segs: seq<Segment>, k: nat, space: set<nat>, pos: nat, bytes: seq<Byte>)
    requires Beside(d0, d, segs, space) && k < |segs| && segs[k].pos % PAGE == 0
    requires segs[k].pos <= pos && pos + |bytes| <= segs[k].pos + segs[k].size && pos + |bytes| <= |d.pool|
    ensures Beside(d0, d.(pool := d.pool[..pos] + bytes + d.pool[pos + |bytes|..]), segs, space)
  {
    hide Untouched, Away;
    WriteUntouched(d0, d, segs, k, space, pos, bytes);
  }

  /** The objects are those that were, and the segments. */
  ghost predicate Named(d: Disk, d': Disk, segs: seq<Segment>) {
    d'.index.Keys == d.index.Keys + Oids(segs)
  }

  lemma GrowTaken(d0: Disk, d: Disk, d': Disk, segs: seq<Segment>, g: Segment)
    requires segs != [] && Taken(d0, d, segs) && Extended(d, d', segs, g)
    ensures Taken(d0, d', segs + [g])
    ensures Named(d0, d, segs) ==> Named(d0, d', segs + [g])
  {
    hide Extent, Space;
    SpaceAdd(segs, g);
  }

  lemma ChainBeside(d: Disk, segs: seq<Segment>)
    requires Chain(d, segs)
    ensures Beside(d, d, segs, Space(segs))
  {
    StartsAway(d, segs);
    SpaceUsed(d, segs);
    OidsIndexed(d, segs);
    hide Space, Untouched, Away, Chain, Oids;
  }

  lemma GrowUntouched(d0: Disk, d: Disk, d': Disk, segs: seq<Segment>, g: Segment, space: set<nat>)
    requires Untouched(d0, d, space) && Away(d0, segs, space) && Chain(d, segs) && Extended(d, d', segs, g)
    ensures Untouched(d0, d', space) && Away(d0, segs + [g], space)
  {
    hide Extent;
    var last := segs[|segs| - 1];
    assert SegmentAt(d, last, 0) && last in segs;
    InExtent(last.pos, last.size, last.pos);
    InExtent(g.pos, g.size, g.pos);
  }

  // ----- writing

  /** Every segment behind the first has room for data. */
  ghost predicate Roomy(segs: seq<Segment>) {
    segs != [] && forall i :: 0 < i < |segs| ==> segs[i].size > HEADER
  }

  /** The size of the segment that a writer appends to one of the given size. */
  function Grown(size: nat, extent: nat): nat {
    if size * 2 > extent then extent else size * 2
  }

  /** The segments from n on are appended ones: each as long as its writer makes it. */
  ghost predicate Appended(segs: seq<Segment>, n: nat, extent: nat) {
    forall i :: 0 < n <= i < |segs| ==> segs[i].size == Grown(segs[i - 1].size, extent)
  }

  lemma NothingAppended(segs: seq<Segment>, extent: nat)
    ensures Appended(segs, |segs|, extent)
  {
  }

  lemma AppendedFurther(a: seq<Segment>, b: seq<Segment>, n: nat, extent: nat)
    requires n <= |a| && a <= b && Appended(a, n, extent) && Appended(b, |a|, extent) && n > 0
    ensures Appended(b, n, extent)
  {
    hide Grown;
  }

  /** All segments that a writer with this extent will append to one of the given size take
      whole pages: twice the size does, twice that, and so on up to the extent. */
  predicate Extendable(size: nat, extent: nat)
    decreases extent - size
  {
    size == 0 || size * 2 > extent || (Whole(size * 2) && Extendable(size * 2, extent))
  }

  lemma GrowsWhole(size: nat, extent: nat)
    requires size > 0 && extent > 0 && extent % PAGE == 0 && Extendable(size, extent)
    ensures var next := Grown(size, extent);
            next >= QUANTUM && Whole(next) && Extendable(next, extent)
  {
    WholePages(extent);
  }

  /** The size of the n-th segment behind one of the given size. */
  function GrownBy(n: nat, size: nat, extent: nat): nat {
    if n == 0 then size else GrownBy(n - 1, Grown(size, extent), extent)
  }

  /** allocate can only return the start of a page, as the writer asserts. */
  ghost predicate OnPages(d: Disk, size: nat) {
    forall at: nat :: MayAllocate(d, size, at) ==> at % PAGE == 0
  }

  lemma OnPagesExactly(d: Disk, size: nat)
    requires forall q :: q in d.used ==> q * QUANTUM <= |d.pool| - QUANTUM
    ensures OnPages(d, size) <==> Whole(size)
  {
    if !Whole(size) {
      var at := Pages(|d.pool| + 1) + QUANTUM;
      PastTheEnd(d, size, at);
    }
  }

  /** The writer's assertion on the place of a new segment holds for all segments that it can
      append, in every database, exactly when what it starts from is extendable. */
  lemma {:induction false} ExtendableExactly(d: Disk, size: nat, extent: nat)
    requires forall q :: q in d.used ==> q * QUANTUM <= |d.pool| - QUANTUM
    requires size > 0 && extent > 0 && extent % PAGE == 0
    ensures Extendable(size, extent) <==> forall n: nat :: n > 0 ==> OnPages(d, GrownBy(n, size, extent))
    decreases extent - size
  {
    var next := Grown(size, extent);
    if Extendable(size, extent) {
      forall n: nat | n > 0
        ensures OnPages(d, GrownBy(n, size, extent))
      {
        GrownWhole(n, size, extent);
        OnPagesExactly(d, GrownBy(n, size, extent));
      }
    } else {
      OnPagesExactly(d, next);
      assert GrownBy(1, size, extent) == GrownBy(0, next, extent) == next;
      if Whole(next) {
        ExtendableExactly(d, next, extent);
        var n: nat :| n > 0 && !OnPages(d, GrownBy(n, next, extent));
        var m: nat := n + 1;
        assert GrownBy(m, size, extent) == GrownBy(n, next, extent);
        assert !OnPages(d, GrownBy(m, size, extent));
      } else {
        assert !OnPages(d, GrownBy(1, size, extent));
      }
    }
  }

  lemma {:induction false} GrownWhole(n: nat, size: nat, extent: nat)
    requires n > 0 && size > 0 && extent > 0 && extent % PAGE == 0 && Extendable(size, extent)
    ensures Whole(GrownBy(n, size, extent))
  {
    hide Extendable, Whole;
    GrowsWhole(size, extent);
    if n > 1 {
      GrownWhole(n - 1, Grown(size, extent), extent);
    }
  }

  /** A blob that was closed after 88 bytes cannot be extended: the next segment would take
      200 bytes. */
  lemma CutNotExtendable()
    ensures !Extendable(HEADER + 88, 8 * PAGE)
  {
    assert Rounded(200) == 256;
  }

  lemma WholePages(n: nat)
    requires n % PAGE == 0
    ensures Whole(n)
  {
    assert n == n / PAGE * 128 * QUANTUM;
    DivShift(n / PAGE * 128, QUANTUM - 1);
  }

  /** Behind a full segment everything written is whole segments. */
  lemma SegmentDone(d: Disk, segs: seq<Segment>, k: nat)
    requires Chain(d, segs) && k < |segs|
    ensures Data(d.pool, segs[..k]) + d.pool[segs[k].pos + HEADER..segs[k].pos + segs[k].size]
            == Data(d.pool, segs[..k + 1])
  {
    Reads(d, segs, k);
    assert Piece(d.pool, segs[k]) == d.pool[segs[k].pos + HEADER..segs[k].pos + segs[k].size];
    hide Chain, Data, Piece;
    PrefixAdd(segs, k);
    DataAdd(d.pool, segs[..k], segs[k]);
  }

  lemma PrefixAdd(segs: seq<Segment>, k: nat)
    requires k < |segs|
    ensures segs[..k + 1] == segs[..k] + [segs[k]]
  {
  }

  /** Only the last segment links to nothing. */
  lemma OnlyLastEnds(d: Disk, segs: seq<Segment>, k: nat)
    requires Chain(d, segs) && k < |segs| && forall o :: o in d.index ==> o > 0
    ensures NextOid(segs, k) == 0 <==> k + 1 == |segs|
  {
    if k + 1 < |segs| {
      assert SegmentAt(d, segs[k + 1], NextOid(segs, k + 1));
    }
  }

  /** The writer's fields say that it stands in segment k, behind what has been written. */
  ghost predicate Standing(d: Disk, segs: seq<Segment>, k: nat, oid: nat, next: nat, pos: nat, size: nat,
                           written: seq<Byte>) {
    && Chain(d, segs) && Roomy(segs) && k < |segs|
    && oid == segs[k].oid && next == NextOid(segs, k)
    && segs[k].pos + HEADER <= pos && pos + size == segs[k].pos + segs[k].size
    && pos + size <= |d.pool|
    && written == Data(d.pool, segs[..k]) + d.pool[segs[k].pos + HEADER..pos]
  }

  lemma StandingKnown(d: Disk, segs: seq<Segment>, k: nat, oid: nat, next: nat, pos: nat, size: nat, written: seq<Byte>)
    requires Standing(d, segs, k, oid, next, pos, size, written)
    ensures Chain(d, segs) && k < |segs| && oid == segs[k].oid && next == NextOid(segs, k)
    ensures segs[k].pos + HEADER <= pos && pos + size == segs[k].pos + segs[k].size <= |d.pool|
    ensures segs[k].size >= HEADER
  {
    assert SegmentAt(d, segs[k], next);
  }

  /** What the writer reads about segment k. */
  lemma Reads(d: Disk, segs: seq<Segment>, k: nat)
    requires Chain(d, segs) && k < |segs|
    ensures var g := segs[k];
            && g.oid in d.index && d.index[g.oid] == g.pos
            && g.pos in d.records && d.records[g.pos] == Record(g.size, NextOid(segs, k))
            && g.size >= HEADER && g.pos + g.size <= |d.pool| && g.pos % PAGE == 0 && g.pos > 0
  {
    assert SegmentAt(d, segs[k], NextOid(segs, k));
  }

  /** Stepping to the start of the next segment. */
  lemma StandingNext(d: Disk, segs: seq<Segment>, k: nat, oid: nat, next: nat, pos: nat, written: seq<Byte>)
    requires Standing(d, segs, k, oid, next, pos, 0, written) && k + 1 < |segs|
    ensures var g := segs[k + 1];
            && Standing(d, segs, k + 1, g.oid, NextOid(segs, k + 1), g.pos + HEADER, g.size - HEADER, written)
            && g.size > HEADER
  {
    SegmentDone(d, segs, k);
    Reads(d, segs, k + 1);
    assert d.pool[segs[k + 1].pos + HEADER..segs[k + 1].pos + HEADER] == [];
  }

  /** Stepping into a new segment. */
  lemma StandingNew(d: Disk, d': Disk, segs: seq<Segment>, k: nat, oid: nat, pos: nat, written: seq<Byte>, g: Segment)
    requires Standing(d, segs, k, oid, 0, pos, 0, written) && k + 1 == |segs| && Extended(d, d', segs, g)
    requires g.size > HEADER
    ensures Standing(d', segs + [g], k + 1, g.oid, 0, g.pos + HEADER, g.size - HEADER, written)
  {
    hide Extent;
    SegmentDone(d, segs, k);
    assert segs[..k + 1] == segs && (segs + [g])[..k + 1] == segs;
    ChainGrows(d, d', segs, g);
    assert d'.pool[g.pos + HEADER..g.pos + HEADER] == [];
  }

  /** Writing a few bytes where the writer stands. */
  lemma StandingWrite(d: Disk, segs: seq<Segment>, k: nat, oid: nat, next: nat, pos: nat, size: nat,
                      written: seq<Byte>, bytes: seq<Byte>)
    requires Standing(d, segs, k, oid, next, pos, size, written) && |bytes| <= size
    ensures Standing(d.(pool := d.pool[..pos] + bytes + d.pool[pos + |bytes|..]), segs, k, oid, next,
                     pos + |bytes|, size - |bytes|, written + bytes)
  {
    WriteKeepsData(d, segs, k, pos, bytes);
    ChainKept(d, segs, d.pool[..pos] + bytes + d.pool[pos + |bytes|..]);
    hide Chain, Data;
    Associate(Data(d.pool, segs[..k]), d.pool[segs[k].pos + HEADER..pos], bytes);
  }

  lemma Associate(a: seq<Byte>, b: seq<Byte>, c: seq<Byte>)
    ensures a + b + c == a + (b + c)
  {
  }

  lemma ChainKept(d: Disk, segs: seq<Segment>, pool: seq<Byte>)
    requires Chain(d, segs) && |pool| == |d.pool|
    ensures Chain(d.(pool := pool), segs)
  {
    hide Extent, Separate;
    forall i | 0 <= i < |segs|
      ensures SegmentAt(d.(pool := pool), segs[i], NextOid(segs, i))
    {
      assert SegmentAt(d, segs[i], NextOid(segs, i));
    }
    forall i, j | 0 <= i < j < |segs|
      ensures Separate(segs[i], segs[j])
    {
    }
  }

  /** Where a writer stands. */
  datatype Place = Nowhere | Place(d: Disk, segs: seq<Segment>, k: nat, oid: nat, next: nat, pos: nat, size: nat,
                                   written: seq<Byte>)

  type WriterPlace = p: Place | p.Place? ==> Standing(p.d, p.segs, p.k, p.oid, p.next, p.pos, p.size, p.written)
    ghost witness Nowhere

  /** What the writer reads about the last segment before it appends one. */
  lemma LastReads(d: Disk, segs: seq<Segment>, k: nat, oid: nat, pos: nat, written: seq<Byte>, extent: nat)
    requires Standing(d, segs, k, oid, 0, pos, 0, written) && forall o :: o in d.index ==> o > 0
    requires Extendable(segs[|segs| - 1].size, extent) && extent > 0 && extent % PAGE == 0
    ensures k + 1 == |segs| && segs[k].oid == oid && oid in d.index && d.index[oid] == segs[k].pos
    ensures segs[k].pos in d.records && d.records[segs[k].pos].size == segs[k].size
    ensures var next := Grown(segs[k].size, extent);
            next >= QUANTUM && Whole(next) && Extendable(next, extent)
  {
    OnlyLastEnds(d, segs, k);
    Reads(d, segs, k);
    hide Chain, Extendable, Whole;
    GrowsWhole(segs[k].size, extent);
  }

  lemma NewLast(d0: Disk, d: Disk, d': Disk, segs: seq<Segment>, k: nat, oid: nat, pos: nat, written: seq<Byte>,
                g: Segment, space: set<nat>)
    requires Standing(d, segs, k, oid, 0, pos, 0, written) && k + 1 == |segs| && Extended(d, d', segs, g)
    requires g.size > HEADER && Beside(d0, d, segs, space)
    ensures Standing(d', segs + [g], k + 1, g.oid, 0, g.pos + HEADER, g.size - HEADER, written)
    ensures Beside(d0, d', segs + [g], space) && (segs + [g])[|segs + [g]| - 1] == g && segs <= segs + [g]
  {
    StandingKnown(d, segs, k, oid, 0, pos, 0, written);
    hide Standing, Extended, Beside, Chain;
    StandingNew(d, d', segs, k, oid, pos, written, g);
    GrowBeside(d0, d, d', segs, g, space);
  }

  // ----- closing

  /** The whole quanta of a segment behind a position in it. */
  function CutOff(at: nat, size: nat, pos: nat): set<nat> {
    Range(QuantumUp(pos), at / QUANTUM + QuantumUp(size))
  }

  /** They are what close frees behind the position; the others remain. */
  lemma Tail(at: nat, size: nat, pos: nat)
    requires at % PAGE == 0 && at + HEADER <= pos <= at + size
    ensures var offs := (QUANTUM - pos % QUANTUM) % QUANTUM;
            var rest := at + size - pos;
            && (pos + offs) % QUANTUM == 0
            && CutOff(at, size, pos) == (if rest > offs then Extent(pos + offs, rest - offs) else {})
    ensures Extent(at, size) - CutOff(at, size, pos) == Extent(at, pos - at)
    ensures CutOff(at, size, pos) <= Extent(at, size)
  {
    hide Range, QuantumUp;
    UpShift(at, size);
    UpShift(at, pos - at);
    CutPosition(pos);
    var offs := (QUANTUM - pos % QUANTUM) % QUANTUM;
    assert pos + offs == QuantumUp(pos) * QUANTUM;
    var rest := at + size - pos;
    if rest > offs {
      BehindCut(at, size, pos, offs);
    } else {
      Sets.SameNumbers(CutOff(at, size, pos), {});
    }
    Sets.SameNumbers(Extent(at, size) - CutOff(at, size, pos), Extent(at, pos - at));
  }

  lemma CutPosition(pos: nat)
    ensures pos + (QUANTUM - pos % QUANTUM) % QUANTUM == QuantumUp(pos) * QUANTUM
  {
  }

  lemma BehindCut(at: nat, size: nat, pos: nat, offs: nat)
    requires at % PAGE == 0 && pos + offs == QuantumUp(pos) * QUANTUM && pos + offs <= at + size
    ensures CutOff(at, size, pos) == Extent(pos + offs, at + size - pos - offs)
  {
    hide Range;
    UpShift(at, size);
    DivShift(QuantumUp(pos), 0);
    DivShift(QuantumUp(pos), at + size - pos - offs + QUANTUM - 1);
  }

  function Oids(segs: seq<Segment>): set<nat> {
    if segs == [] then {} else {segs[0].oid} + Oids(segs[1..])
  }

  lemma {:induction false} SpaceAdd(segs: seq<Segment>, g: Segment)
    ensures Space(segs + [g]) == Space(segs) + Extent(g.pos, g.size)
    ensures Oids(segs + [g]) == Oids(segs) + {g.oid}
  {
    hide Extent;
    if segs == [] {
      assert segs + [g] == [g] && [g][1..] == [];
    } else {
      assert (segs + [g])[1..] == segs[1..] + [g];
      SpaceAdd(segs[1..], g);
    }
  }

  lemma {:induction false} SpaceAppend(a: seq<Segment>, b: seq<Segment>)
    ensures Space(a + b) == Space(a) + Space(b)
  {
    hide Extent;
    if a == [] {
      assert a + b == b;
    } else {
      assert (a + b)[1..] == a[1..] + b;
      SpaceAppend(a[1..], b);
    }
  }

  /** The space of some segments is apart from what each of them is apart from. */
  lemma {:induction false} SpaceApart(segs: seq<Segment>, s: set<nat>, o: nat)
    requires forall i :: 0 <= i < |segs| ==> Extent(segs[i].pos, segs[i].size) !! s && segs[i].oid != o
    ensures Space(segs) !! s && o !in Oids(segs)
  {
    hide Extent;
    if segs != [] {
      forall i | 0 <= i < |segs[1..]|
        ensures Extent(segs[1..][i].pos, segs[1..][i].size) !! s && segs[1..][i].oid != o
      {
        assert segs[1..][i] == segs[i + 1];
      }
      SpaceApart(segs[1..], s, o);
    }
  }

  /** close has cut segment k at pos and freed the segments behind it up to segment i. */
  ghost predicate Closing(d0: Disk, d: Disk, segs: seq<Segment>, k: nat, pos: nat, i: nat)
    requires k < i <= |segs|
  {
    && d.pool == d0.pool
    && segs[k].pos <= pos
    && d.records == d0.records[segs[k].pos := Record(pos - segs[k].pos, 0)]
    && d.index == d0.index - Oids(segs[k + 1..i])
    && d.used == d0.used - CutOff(segs[k].pos, segs[k].size, pos) - Space(segs[k + 1..i])
  }

  lemma ClosingReads(d0: Disk, d: Disk, segs: seq<Segment>, k: nat, pos: nat, i: nat)
    requires Chain(d0, segs) && k < i < |segs| && Closing(d0, d, segs, k, pos, i)
    ensures segs[i].oid in d.index && d.index[segs[i].oid] == segs[i].pos
    ensures segs[i].pos in d.records && d.records[segs[i].pos] == Record(segs[i].size, NextOid(segs, i))
    ensures segs[i].pos > 0 && segs[i].pos % QUANTUM == 0
  {
    hide Extent, CutOff, Space;
    assert SegmentAt(d0, segs[i], NextOid(segs, i)) && SegmentAt(d0, segs[k], NextOid(segs, k))
        && Separate(segs[k], segs[i]);
    BytesApart(segs[k], segs[i]);
    NotYetFreed(segs, k, i);
    UpShift(segs[i].pos, 0);
  }

  lemma NotYetFreed(segs: seq<Segment>, k: nat, i: nat)
    requires k < i < |segs| && forall a, b :: 0 <= a < b < |segs| ==> Separate(segs[a], segs[b])
    ensures segs[i].oid !in Oids(segs[k + 1..i])
  {
    hide Extent;
    var some := segs[k + 1..i];
    forall j | 0 <= j < |some|
      ensures Extent(some[j].pos, some[j].size) !! {} && some[j].oid != segs[i].oid
    {
      assert some[j] == segs[k + 1 + j] && Separate(segs[k + 1 + j], segs[i]);
    }
    SpaceApart(some, {}, segs[i].oid);
  }

  lemma ClosingStep(d0: Disk, d: Disk, d': Disk, segs: seq<Segment>, k: nat, pos: nat, i: nat)
    requires k < i < |segs| && Closing(d0, d, segs, k, pos, i)
    requires d' == d.(index := d.index - {segs[i].oid}, used := d.used - Extent(segs[i].pos, segs[i].size))
    ensures Closing(d0, d', segs, k, pos, i + 1)
  {
    hide Extent, CutOff;
    assert segs[k + 1..i + 1] == segs[k + 1..i] + [segs[i]];
    SpaceAdd(segs[k + 1..i], segs[i]);
  }

  /** The chain that remains. */
  function Cut(segs: seq<Segment>, k: nat, pos: nat): seq<Segment>
    requires k < |segs| && segs[k].pos <= pos
  {
    segs[..k] + [Segment(segs[k].oid, segs[k].pos, pos - segs[k].pos)]
  }

  /** The segments behind k are apart from those up to k. */
  lemma RestApart(segs: seq<Segment>, k: nat, i: nat)
    requires i <= k < |segs| && forall a, b :: 0 <= a < b < |segs| ==> Separate(segs[a], segs[b])
    ensures Space(segs[k + 1..|segs|]) !! Extent(segs[i].pos, segs[i].size) && segs[i].oid !in Oids(segs[k + 1..|segs|])
  {
    hide Extent;
    var rest := segs[k + 1..|segs|];
    forall j | 0 <= j < |rest|
      ensures Extent(rest[j].pos, rest[j].size) !! Extent(segs[i].pos, segs[i].size) && rest[j].oid != segs[i].oid
    {
      assert rest[j] == segs[k + 1 + j] && Separate(segs[i], segs[k + 1 + j]);
    }
    SpaceApart(rest, Extent(segs[i].pos, segs[i].size), segs[i].oid);
  }

  lemma EarlierStays(d0: Disk, d: Disk, segs: seq<Segment>, k: nat, pos: nat, i: nat)
    requires Chain(d0, segs) && i < k < |segs| && Closing(d0, d, segs, k, pos, |segs|)
    requires segs[k].pos + HEADER <= pos <= segs[k].pos + segs[k].size
    ensures SegmentAt(d, segs[i], NextOid(segs, i))
  {
    assert SegmentAt(d0, segs[i], NextOid(segs, i)) && SegmentAt(d0, segs[k], NextOid(segs, k))
        && Separate(segs[i], segs[k]);
    Tail(segs[k].pos, segs[k].size, pos);
    hide Extent, CutOff, Space, Oids;
    RestApart(segs, k, i);
    BytesApart(segs[i], segs[k]);
  }

  lemma CurrentIsCut(d0: Disk, d: Disk, segs: seq<Segment>, k: nat, pos: nat)
    requires Chain(d0, segs) && k < |segs| && Closing(d0, d, segs, k, pos, |segs|)
    requires segs[k].pos + HEADER <= pos <= segs[k].pos + segs[k].size
    ensures SegmentAt(d, Segment(segs[k].oid, segs[k].pos, pos - segs[k].pos), 0)
    ensures Extent(segs[k].pos, pos - segs[k].pos) <= Extent(segs[k].pos, segs[k].size)
  {
    assert SegmentAt(d0, segs[k], NextOid(segs, k));
    Tail(segs[k].pos, segs[k].size, pos);
    hide Extent, CutOff, Space, Oids;
    RestApart(segs, k, k);
  }

  lemma CutChain(d0: Disk, d: Disk, segs: seq<Segment>, k: nat, pos: nat)
    requires Chain(d0, segs) && k < |segs| && Closing(d0, d, segs, k, pos, |segs|)
    requires segs[k].pos + HEADER <= pos <= segs[k].pos + segs[k].size
    ensures Chain(d, Cut(segs, k, pos))
  {
    hide Extent, Closing, CutOff;
    var cut := Cut(segs, k, pos);
    CurrentIsCut(d0, d, segs, k, pos);
    forall i | 0 <= i < |cut|
      ensures SegmentAt(d, cut[i], NextOid(cut, i))
    {
      if i < k {
        EarlierStays(d0, d, segs, k, pos, i);
      }
    }
    forall i, j | 0 <= i < j < |cut|
      ensures Separate(cut[i], cut[j])
    {
      assert Separate(segs[i], segs[j]);
      SeparateShrinks(segs[i], segs[j], cut[j]);
    }
  }

  lemma SeparateShrinks(g: Segment, h: Segment, short: Segment)
    requires Separate(g, h) && short.oid == h.oid && Extent(short.pos, short.size) <= Extent(h.pos, h.size)
    ensures Separate(g, short)
  {
  }

  lemma CutData(d0: Disk, segs: seq<Segment>, k: nat, pos: nat)
    requires Chain(d0, segs) && k < |segs| && segs[k].pos + HEADER <= pos <= segs[k].pos + segs[k].size
    ensures Data(d0.pool, Cut(segs, k, pos)) == Data(d0.pool, segs[..k]) + d0.pool[segs[k].pos + HEADER..pos]
  {
    assert SegmentAt(d0, segs[k], NextOid(segs, k));
    DataAdd(d0.pool, segs[..k], Segment(segs[k].oid, segs[k].pos, pos - segs[k].pos));
  }

  /** What remains in use is what the remaining chain takes, besides everything else. */
  lemma CutSpace(d0: Disk, d: Disk, segs: seq<Segment>, k: nat, pos: nat)
    requires Chain(d0, segs) && k < |segs| && Closing(d0, d, segs, k, pos, |segs|)
    requires segs[k].pos + HEADER <= pos <= segs[k].pos + segs[k].size
    ensures var cut := Cut(segs, k, pos);
            Space(cut) <= Space(segs) && d.used == d0.used - Space(segs) + Space(cut)
  {
    var g := segs[k];
    assert d.used == d0.used - CutOff(g.pos, g.size, pos) - Space(segs[k + 1..|segs|]);
    CutParts(d0, segs, k, pos);
    SpaceParts(segs, k, pos);
    hide *;
    SetCut(d0.used, Space(segs[..k]), Extent(g.pos, g.size), Space(segs[k + 1..|segs|]),
           CutOff(g.pos, g.size, pos), Extent(g.pos, pos - g.pos));
  }

  /** The space of a chain in parts: the segments in front, one that is cut, and the rest. */
  ghost predicate Parts(used: set<nat>, front: set<nat>, whole: set<nat>, rest: set<nat>, cut: set<nat>,
                        kept: set<nat>) {
    && front !! whole && front !! rest && whole !! rest && front + whole + rest <= used
    && cut <= whole && whole - cut == kept
  }

  lemma CutParts(d: Disk, segs: seq<Segment>, k: nat, pos: nat)
    requires Chain(d, segs) && k < |segs| && segs[k].pos + HEADER <= pos <= segs[k].pos + segs[k].size
    ensures var g := segs[k];
            Parts(d.used, Space(segs[..k]), Extent(g.pos, g.size), Space(segs[k + 1..|segs|]),
                  CutOff(g.pos, g.size, pos), Extent(g.pos, pos - g.pos))
  {
    PartsApart(d, segs, k);
    PartsUsed(d, segs, k, pos);
    PageOf(d, segs, k);
    hide Extent, CutOff, Space, Oids, Chain;
    Tail(segs[k].pos, segs[k].size, pos);
  }

  lemma PageOf(d: Disk, segs: seq<Segment>, k: nat)
    requires Chain(d, segs) && k < |segs|
    ensures segs[k].pos % PAGE == 0
  {
    Reads(d, segs, k);
  }

  lemma PartsApart(d: Disk, segs: seq<Segment>, k: nat)
    requires Chain(d, segs) && k < |segs|
    ensures var whole := Extent(segs[k].pos, segs[k].size);
            && Space(segs[..k]) !! whole && Space(segs[..k]) !! Space(segs[k + 1..|segs|])
            && whole !! Space(segs[k + 1..|segs|])
  {
    assert forall a, b :: 0 <= a < b < |segs| ==> Separate(segs[a], segs[b]);
    hide *;
    RestApart(segs, k, k);
    FrontApart(segs, k);
  }

  lemma PartsUsed(d: Disk, segs: seq<Segment>, k: nat, pos: nat)
    requires Chain(d, segs) && k < |segs| && segs[k].pos <= pos
    ensures Space(segs[..k]) + Extent(segs[k].pos, segs[k].size) + Space(segs[k + 1..|segs|]) <= d.used
  {
    hide *;
    SpaceUsed(d, segs);
    SpaceParts(segs, k, pos);
  }

  lemma SpaceParts(segs: seq<Segment>, k: nat, pos: nat)
    requires k < |segs| && segs[k].pos <= pos
    ensures Space(segs) == Space(segs[..k]) + Extent(segs[k].pos, segs[k].size) + Space(segs[k + 1..|segs|])
    ensures Space(Cut(segs, k, pos)) == Space(segs[..k]) + Extent(segs[k].pos, pos - segs[k].pos)
  {
    hide Extent, Space;
    assert segs == segs[..k] + [segs[k]] + segs[k + 1..|segs|];
    SpaceAppend(segs[..k] + [segs[k]], segs[k + 1..|segs|]);
    SpaceAdd(segs[..k], segs[k]);
    SpaceAdd(segs[..k], Segment(segs[k].oid, segs[k].pos, pos - segs[k].pos));
  }

  lemma SetCut(used: set<nat>, front: set<nat>, whole: set<nat>, rest: set<nat>, cut: set<nat>, kept: set<nat>)
    requires Parts(used, front, whole, rest, cut, kept)
    ensures used - cut - rest == used - (front + whole + rest) + (front + kept)
    ensures front + kept <= front + whole + rest
  {
    Sets.SameNumbers(used - cut - rest, used - (front + whole + rest) + (front + kept));
  }

  lemma FrontApart(segs: seq<Segment>, k: nat)
    requires k < |segs| && forall a, b :: 0 <= a < b < |segs| ==> Separate(segs[a], segs[b])
    ensures Space(segs[..k]) !! Extent(segs[k].pos, segs[k].size) && Space(segs[..k]) !! Space(segs[k + 1..|segs|])
  {
    hide Extent;
    var front := segs[..k];
    forall j | 0 <= j < |front|
      ensures Extent(front[j].pos, front[j].size) !! Extent(segs[k].pos, segs[k].size)
      ensures Extent(front[j].pos, front[j].size) !! Space(segs[k + 1..|segs|])
      ensures front[j].oid != segs[k].oid
    {
      assert front[j] == segs[j] && Separate(segs[j], segs[k]);
      RestApart(segs, k, j);
    }
    SpaceApart(front, Extent(segs[k].pos, segs[k].size), segs[k].oid);
    SpaceApart(front, Space(segs[k + 1..|segs|]), segs[k].oid);
  }

  lemma SpaceUsed(d: Disk, segs: seq<Segment>)
    requires Chain(d, segs)
    ensures Space(segs) <= d.used
  {
    hide Extent;
    forall i | 0 <= i < |segs|
      ensures Extent(segs[i].pos, segs[i].size) <= d.used
    {
      assert SegmentAt(d, segs[i], NextOid(segs, i));
    }
    SpaceInside(segs, d.used);
  }

  lemma {:induction false} SpaceInside(segs: seq<Segment>, s: set<nat>)
    requires forall i :: 0 <= i < |segs| ==> Extent(segs[i].pos, segs[i].size) <= s
    ensures Space(segs) <= s
  {
    hide Extent;
    if segs != [] {
      forall i | 0 <= i < |segs[1..]|
        ensures Extent(segs[1..][i].pos, segs[1..][i].size) <= s
      {
        assert segs[1..][i] == segs[i + 1];
      }
      SpaceInside(segs[1..], s);
    }
  }

  class WriteIterator {
    const db: Database
    const extent: nat
    var size: nat
    var pos: nat
    var oid: nat
    var next: nat
    var closed: bool
    ghost var segs: seq<Segment>
    ghost var k: nat                 // the segment being written
    ghost var written: seq<Byte>
    ghost var place: WriterPlace

    ghost predicate Valid()
      reads this, db
    {
      && db.Valid() && !closed && extent > 0 && extent % PAGE == 0
      && segs != [] && Extendable(segs[|segs| - 1].size, extent)
      && place == Place(db.Now(), segs, k, oid, next, pos, size, written)
    }

    /** If the writer has gone behind the first segment it has written something there. */
    ghost predicate Started()
      reads this
    {
      k < |segs| && (k > 0 ==> pos > segs[k].pos + HEADER)
    }

    /** getWriteIterator on a chain that starts at object first; it may be one that close has
        cut, if the writer can append to what is left of its last segment. */
    constructor (db: Database, first: nat, maxExtent: nat, ghost segs: seq<Segment>)
      requires db.Valid() && maxExtent > 0
      requires Chain(db.Now(), segs) && Roomy(segs) && segs[0].oid == first
      requires Extendable(segs[|segs| - 1].size, Pages(maxExtent))
      ensures Valid() && Started() && written == [] && this.db == db && this.segs == segs && k == 0
      ensures extent == Pages(maxExtent)
    {
      Reads(db.Now(), segs, 0);
      this.db := db;
      var rec := db.records[db.index[first]];
      pos := db.index[first] + HEADER;
      size := rec.size - HEADER;
      next := rec.next;
      oid := first;
      extent := Pages(maxExtent);
      closed := false;
      this.segs := segs;
      k := 0;
      written := [];
      ghost var g := segs[0];
      assert segs[..0] == [] && db.pool[g.pos + HEADER..g.pos + HEADER] == [];
      place := Place(db.Now(), segs, 0, first, NextOid(segs, 0), g.pos + HEADER, g.size - HEADER, []);
    }

    /** getAvailableSize: never 0. What was outside the given space when the database was d0
        stays as it was. */
    method GetAvailableSize(ghost d0: Disk, ghost space: set<nat>) returns (n: nat)
      requires Valid() && Beside(d0, db.Now(), segs, space)
      modifies this, db
      ensures Valid() && n == size > 0
      ensures written == old(written) && old(segs) <= segs
      ensures segs == old(segs) || (old(size) == 0 && old(next) == 0 && |segs| == |old(segs)| + 1)
      ensures Appended(segs, |old(segs)|, extent)
      ensures Beside(d0, db.Now(), segs, space)
    {
      hide Standing, Roomy, Beside, Extendable;
      if size == 0 {
        if next != 0 {
          Advance();
        } else {
          Grow(d0, space);
        }
      }
      n := size;
    }

    /** On to the next segment of the chain. */
    method Advance()
      requires Valid() && size == 0 && next != 0
      modifies this
      ensures Valid() && size > 0 && written == old(written) && segs == old(segs)
    {
      hide Standing, Chain, Roomy;
      StandingKnown(db.Now(), segs, k, oid, next, pos, size, written);
      OnlyLastEnds(db.Now(), segs, k);
      Reads(db.Now(), segs, k + 1);
      StandingNext(db.Now(), segs, k, oid, next, pos, written);
      pos := db.index[next] + HEADER;
      var rec := db.records[db.index[next]];
      size := rec.size - HEADER;
      oid := next;
      next := rec.next;
      k := k + 1;
      place := Place(db.Now(), segs, k, oid, next, pos, size, written);
    }

    /** Behind the last segment: allocate a new one, twice as long or as long as allowed. */
    method Grow(ghost d0: Disk, ghost space: set<nat>)
      requires Valid() && size == 0 && next == 0
      requires Beside(d0, db.Now(), segs, space)
      modifies this, db
      ensures Valid() && size > 0 && written == old(written) && old(segs) <= segs
      ensures |segs| == |old(segs)| + 1 && Appended(segs, |old(segs)|, extent)
      ensures Beside(d0, db.Now(), segs, space)
    {
      hide Standing, Chain, Roomy, Extent, Beside, Extendable, Whole, Extended;
      ghost var d := db.Now();
      ghost var was := (oid, pos);
      LastReads(d, segs, k, oid, pos, written, extent);
      var rec := db.records[db.index[oid]];
      size := rec.size * 2;
      if size > extent {
        size := extent;
      }
      oid, pos := db.AppendSegment(db.index[oid], size, segs);
      ghost var g := Segment(oid, pos, size);
      NewLast(d0, d, db.Now(), segs, k, was.0, was.1, written, g, space);
      segs := segs + [g];
      k := k + 1;
      pos := pos + HEADER;
      size := size - HEADER;
      place := Place(db.Now(), segs, k, oid, next, pos, size, written);
    }

    /** write: all of it, behind what was written before. */
    method Write(buf: seq<Byte>)
      requires Valid()
      modifies this, db
      ensures Valid() && written == old(written) + buf && old(segs) <= segs
      ensures Appended(segs, |old(segs)|, extent)
      ensures old(Started()) ==> Started()
      ensures var d, space := old(db.Now()), Space(old(segs));
              Beside(d, db.Now(), segs, space)
    {
      hide Standing, Chain, Roomy, Beside, Space, Extendable, Grown, Appended;
      ghost var d0, space := db.Now(), Space(segs);
      StandingKnown(d0, segs, k, oid, next, pos, size, written);
      ChainBeside(d0, segs);
      assert Appended(segs, |segs|, extent) by { NothingAppended(segs, extent); }
      var src := 0;
      while src < |buf|
        invariant 0 <= src <= |buf|
        invariant Valid() && written == old(written) + buf[..src] && old(segs) <= segs
        invariant old(Started()) ==> Started()
        invariant Appended(segs, |old(segs)|, extent)
        invariant Beside(d0, db.Now(), segs, space)
      {
        ghost var before := segs;
        var left := GetAvailableSize(d0, space);
        AppendedFurther(before, segs, |old(segs)|, extent);
        if left == 0 {
          break;
        }
        var offs := pos % PAGE;
        var available := PAGE - offs;
        if available > size {
          available := size;
        }
        if available > |buf| - src {
          available := |buf| - src;
        }
        assert buf[..src] + buf[src..src + available] == buf[..src + available];
        PutPart(buf[src..src + available], d0, space);
        src := src + available;
      }
      assert buf[..src] == buf;
    }

    /** The part of write inside one page. */
    method PutPart(part: seq<Byte>, ghost d0: Disk, ghost space: set<nat>)
      requires Valid() && |part| <= size && pos % PAGE + |part| <= PAGE
      requires Beside(d0, db.Now(), segs, space)
      modifies this, db
      ensures Valid() && written == old(written) + part && segs == old(segs)
      ensures part != [] || old(Started()) ==> Started()
      ensures Beside(d0, db.Now(), segs, space)
    {
      hide Standing, Chain, Roomy, Beside, Extendable;
      StandingKnown(db.Now(), segs, k, oid, next, pos, size, written);
      Reads(db.Now(), segs, k);
      WriteBeside(d0, db.Now(), segs, k, space, pos, part);
      StandingWrite(db.Now(), segs, k, oid, next, pos, size, written, part);
      db.Put(pos, part);
      written := written + part;
      pos := pos + |part|;
      size := size - |part|;
      place := Place(db.Now(), segs, k, oid, next, pos, size, written);
    }

    /** close: the segment being written is cut to what was written, whole quanta behind it are
        freed, and so are the segments that were not reached. */
    method Close()
      requires Valid()
      modifies this, db
      ensures closed && db.Valid() && written == old(written)
      ensures Chain(db.Now(), segs) && Data(db.pool, segs) == written && segs[0].oid == old(segs)[0].oid
      ensures forall i :: 0 < i < |segs| - 1 ==> segs[i].size > HEADER
      ensures old(Started()) ==> Roomy(segs)
      ensures Space(segs) <= Space(old(segs))
      ensures db.used == old(db.used) - Space(old(segs)) + Space(segs)
      ensures db.index.Keys == old(db.index.Keys) - Oids(old(segs)) + Oids(segs)
      ensures Untouched(old(db.Now()), db.Now(), Space(old(segs)))
    {
      hide Standing, Chain, Extent, Space, Cut, CutOff, Closing, Data, Extendable, Oids;
      ghost var d := db.Now();
      StandingKnown(d, segs, k, oid, next, pos, size, written);
      StandingWritten(d, segs, k, oid, next, pos, size, written);
      CutTail();
      FreeRest(d);
      CutDone(d, db.Now(), segs, k, pos);
      CloseUntouched(d, db.Now(), segs, k, pos);
      CutRoomy(segs, k, pos);
      segs := Cut(segs, k, pos);
      closed := true;
      size := 0;
    }

    /** The part of close for the segment being written. */
    method CutTail()
      requires db.Valid() && Chain(db.Now(), segs) && k < |segs| && oid == segs[k].oid
      requires segs[k].pos + HEADER <= pos && pos + size == segs[k].pos + segs[k].size
      modifies db
      ensures db.Valid() && Closing(old(db.Now()), db.Now(), segs, k, pos, k + 1)
    {
      hide Chain, Extent, CutOff, Closing;
      ghost var d := db.Now();
      Reads(d, segs, k);
      Tail(segs[k].pos, segs[k].size, pos);
      var offs := (QUANTUM - pos % QUANTUM) % QUANTUM;
      if size > offs {
        db.Free(pos + offs, size - offs);
      }
      var at := db.index[oid];
      db.records := db.records[at := Record(db.records[at].size - size, 0)];
      ClosingStarts(d, db.Now(), segs, k, pos);
    }

    /** The loop of close over the segments that were not reached. */
    method FreeRest(ghost d: Disk)
      requires db.Valid() && Chain(d, segs) && k < |segs| && next == NextOid(segs, k)
      requires forall o :: o in d.index ==> o > 0
      requires Closing(d, db.Now(), segs, k, pos, k + 1)
      modifies this`next, db
      ensures db.Valid() && Closing(d, db.Now(), segs, k, pos, |segs|)
    {
      hide Extent, Closing, Chain;
      ghost var i := k + 1;
      while next != 0
        invariant k < i <= |segs| && next == (if i < |segs| then segs[i].oid else 0)
        invariant db.Valid() && Closing(d, db.Now(), segs, k, pos, i)
        decreases |segs| - i
      {
        ClosingReads(d, db.Now(), segs, k, pos, i);
        ClosingStep(d, db.Now(),
                    db.Now().(index := db.index - {segs[i].oid}, used := db.used - Extent(segs[i].pos, segs[i].size)),
                    segs, k, pos, i);
        var rec := db.records[db.index[next]];
        db.Free(db.index[next], rec.size);
        db.index := db.index - {next};
        next := rec.next;
        i := i + 1;
      }
      if i < |segs| {
        Reads(d, segs, i);
      }
    }
  }

  lemma ClosingStarts(d0: Disk, d: Disk, segs: seq<Segment>, k: nat, pos: nat)
    requires k < |segs| && segs[k].pos <= pos
    requires d == d0.(records := d0.records[segs[k].pos := Record(pos - segs[k].pos, 0)],
                      used := d0.used - CutOff(segs[k].pos, segs[k].size, pos))
    ensures Closing(d0, d, segs, k, pos, k + 1)
  {
    hide CutOff;
    assert segs[k + 1..k + 1] == [];
    assert d0.index - {} == d0.index;
  }

  /** The chain that close leaves. */
  lemma CutDone(d0: Disk, d: Disk, segs: seq<Segment>, k: nat, pos: nat)
    requires Chain(d0, segs) && k < |segs| && Closing(d0, d, segs, k, pos, |segs|)
    requires segs[k].pos + HEADER <= pos <= segs[k].pos + segs[k].size
    requires forall i :: 0 < i < k ==> segs[i].size > HEADER
    ensures var cut := Cut(segs, k, pos);
            && Chain(d, cut) && cut[0].oid == segs[0].oid
            && Data(d.pool, cut) == Data(d0.pool, segs[..k]) + d0.pool[segs[k].pos + HEADER..pos]
            && (forall i :: 0 < i < |cut| - 1 ==> cut[i].size > HEADER)
            && Space(cut) <= Space(segs) && d.used == d0.used - Space(segs) + Space(cut)
            && d.index.Keys == d0.index.Keys - Oids(segs) + Oids(cut)
  {
    CutOids(d0, d, segs, k, pos);
    CutChain(d0, d, segs, k, pos);
    CutData(d0, segs, k, pos);
    CutSpace(d0, d, segs, k, pos);
    hide Chain, Space, Data, Oids;
  }

  lemma CloseUntouched(d0: Disk, d: Disk, segs: seq<Segment>, k: nat, pos: nat)
    requires Chain(d0, segs) && k < |segs| && Closing(d0, d, segs, k, pos, |segs|)
    requires segs[k].pos + HEADER <= pos <= segs[k].pos + segs[k].size
    ensures Untouched(d0, d, Space(segs))
  {
    assert SegmentAt(d0, segs[k], NextOid(segs, k));
    InExtent(segs[k].pos, segs[k].size, segs[k].pos);
    StartsAway(d0, segs);
    CutSpace(d0, d, segs, k, pos);
    assert segs[k] in segs;
    FreedOids(d0, segs, k);
    hide Extent, CutOff, Space, Chain, Oids;
  }

  /** The identifiers that close frees are those of segments of the chain. */
  lemma FreedOids(d: Disk, segs: seq<Segment>, k: nat)
    requires Chain(d, segs) && k < |segs|
    ensures forall o :: o in Oids(segs[k + 1..|segs|]) ==> o in d.index && d.index[o] / QUANTUM in Space(segs)
  {
    hide Extent;
    StartsAway(d, segs);
    forall o | o in Oids(segs[k + 1..|segs|])
      ensures o in d.index && d.index[o] / QUANTUM in Space(segs)
    {
      var i := OidOf(segs[k + 1..|segs|], o);
      var g := segs[k + 1 + i];
      assert SegmentAt(d, g, NextOid(segs, k + 1 + i)) && g in segs;
      InExtent(g.pos, g.size, g.pos);
    }
  }

  lemma OidsIndexed(d: Disk, segs: seq<Segment>)
    requires Chain(d, segs)
    ensures Oids(segs) <= d.index.Keys
  {
    forall o | o in Oids(segs)
      ensures o in d.index
    {
      var i := OidOf(segs, o);
      assert SegmentAt(d, segs[i], NextOid(segs, i));
    }
  }

  /** The objects that remain are those of the remaining chain, besides everything else. */
  lemma CutOids(d0: Disk, d: Disk, segs: seq<Segment>, k: nat, pos: nat)
    requires Chain(d0, segs) && k < |segs| && Closing(d0, d, segs, k, pos, |segs|)
    ensures d.index.Keys == d0.index.Keys - Oids(segs) + Oids(Cut(segs, k, pos))
  {
    OidsIndexed(d0, segs);
    OidsParts(segs, k, pos);
    OidsApart(segs, k, pos);
    hide Chain, Oids, Space, Cut, CutOff;
    SetKept(d0.index.Keys, Oids(segs), Oids(Cut(segs, k, pos)), Oids(segs[k + 1..|segs|]));
  }

  lemma OidsParts(segs: seq<Segment>, k: nat, pos: nat)
    requires k < |segs| && segs[k].pos <= pos
    ensures Oids(segs) == Oids(Cut(segs, k, pos)) + Oids(segs[k + 1..|segs|])
  {
    hide Extent, Space, Oids;
    assert segs == segs[..k] + [segs[k]] + segs[k + 1..|segs|];
    OidsAppend(segs[..k] + [segs[k]], segs[k + 1..|segs|]);
    SpaceAdd(segs[..k], segs[k]);
    SpaceAdd(segs[..k], Segment(segs[k].oid, segs[k].pos, pos - segs[k].pos));
  }

  lemma OidsApart(segs: seq<Segment>, k: nat, pos: nat)
    requires k < |segs| && segs[k].pos <= pos && forall a, b :: 0 <= a < b < |segs| ==> Separate(segs[a], segs[b])
    ensures Oids(Cut(segs, k, pos)) !! Oids(segs[k + 1..|segs|])
  {
    hide Extent, Oids, Space;
    forall o | o in Oids(Cut(segs, k, pos))
      ensures o !in Oids(segs[k + 1..|segs|])
    {
      var i := OidOf(Cut(segs, k, pos), o);
      RestApart(segs, k, i);
    }
  }

  lemma SetKept(keys: set<nat>, all: set<nat>, kept: set<nat>, rest: set<nat>)
    requires all <= keys && all == kept + rest && kept !! rest
    ensures keys - rest == keys - all + kept
  {
    Sets.SameNumbers(keys - rest, keys - all + kept);
  }

  lemma {:induction false} OidsAppend(a: seq<Segment>, b: seq<Segment>)
    ensures Oids(a + b) == Oids(a) + Oids(b)
  {
    if a == [] {
      assert a + b == b;
    } else {
      assert (a + b)[1..] == a[1..] + b;
      OidsAppend(a[1..], b);
    }
  }

  lemma {:induction false} OidOf(segs: seq<Segment>, o: nat) returns (i: nat)
    requires o in Oids(segs)
    ensures i < |segs| && segs[i].oid == o
  {
    if segs[0].oid == o {
      i := 0;
    } else {
      i := OidOf(segs[1..], o);
      i := i + 1;
    }
  }

  lemma StandingWritten(d: Disk, segs: seq<Segment>, k: nat, oid: nat, next: nat, pos: nat, size: nat,
                        written: seq<Byte>)
    requires Standing(d, segs, k, oid, next, pos, size, written)
    ensures written == Data(d.pool, segs[..k]) + d.pool[segs[k].pos + HEADER..pos]
    ensures forall i :: 0 < i < k ==> segs[i].size > HEADER
  {
  }

  lemma CutRoomy(segs: seq<Segment>, k: nat, pos: nat)
    requires k < |segs| && segs[k].pos <= pos && forall i :: 0 < i < k ==> segs[i].size > HEADER
    ensures (k > 0 ==> pos > segs[k].pos + HEADER) ==> Roomy(Cut(segs, k, pos))
  {
  }

  // ----- creating, measuring and reading

  lemma TwicePages(n: nat)
    requires n % PAGE == 0
    ensures n * 2 % PAGE == 0
  {
    assert n * 2 == n / PAGE * 2 * PAGE;
  }

  lemma {:induction false} PagesExtendable(size: nat, extent: nat)
    requires size % PAGE == 0
    ensures Extendable(size, extent)
    decreases extent - size
  {
    if size > 0 && size * 2 <= extent {
      TwicePages(size);
      WholePages(size * 2);
      hide Whole;
      PagesExtendable(size * 2, extent);
    }
  }

  /** create: a chain of one segment in new space. */
  method Create(db: Database, size: nat) returns (oid: nat, ghost segs: seq<Segment>)
    requires db.Valid()
    modifies db
    ensures db.Valid() && Chain(db.Now(), segs) && Roomy(segs) && segs[0].oid == oid
    ensures |segs| == 1 && segs[0].size % PAGE == 0 && HEADER + size <= segs[0].size < HEADER + size + PAGE
    ensures size <= |Data(db.pool, segs)| == segs[0].size - HEADER
    ensures Space(segs) !! old(db.used) && db.used == old(db.used) + Space(segs)
    ensures Untouched(old(db.Now()), db.Now(), {})
  {
    hide Extent;
    oid := db.AllocateId();
    var rounded := Pages(HEADER + size);
    WholePages(rounded);
    var pos := db.Allocate(rounded);
    db.index := db.index[oid := pos];
    db.records := db.records[pos := Record(rounded, 0)];
    segs := [Segment(oid, pos, rounded)];
    InExtent(pos, rounded, pos);
    assert segs[1..] == [];
    assert Data(db.pool, segs) == Piece(db.pool, segs[0]) + Data(db.pool, []);
    assert SegmentAt(db.Now(), segs[0], 0);
  }

  /** getSize: the bytes of all segments without their headers. */
  method GetSize(db: Database, first: nat, ghost segs: seq<Segment>) returns (size: nat)
    requires db.Valid() && Chain(db.Now(), segs) && segs[0].oid == first
    ensures size == |Data(db.pool, segs)|
  {
    hide Chain;
    ghost var d := db.Now();
    size := 0;
    var oid := first;
    ghost var i := 0;
    NoSegments(d, segs);
    while true
      invariant 0 <= i < |segs| && oid == segs[i].oid
      invariant size == |Data(d.pool, segs[..i])|
      decreases |segs| - i
    {
      Reads(d, segs, i);
      OnlyLastEnds(d, segs, i);
      SegmentDone(d, segs, i);
      var rec := db.records[db.index[oid]];
      size := size + (rec.size - HEADER);
      oid := rec.next;
      i := i + 1;
      if oid == 0 {
        break;
      }
    }
    assert segs[..i] == segs;
  }

  lemma NoSegments(d: Disk, segs: seq<Segment>)
    requires Chain(d, segs)
    ensures segs != [] && segs[..0] == [] && Data(d.pool, []) == []
  {
  }

  /** What is left to read behind position pos of segment k. */
  ghost function Left(d: Disk, segs: seq<Segment>, k: nat, pos: nat, size: nat): seq<Byte> {
    if k < |segs| && pos + size <= |d.pool| then d.pool[pos..pos + size] + Data(d.pool, segs[k + 1..]) else []
  }

  ghost predicate Reading(d: Disk, segs: seq<Segment>, k: nat, next: nat, pos: nat, size: nat) {
    && Chain(d, segs) && k < |segs| && next == NextOid(segs, k)
    && (forall i :: 0 < i < |segs| - 1 ==> segs[i].size > HEADER)
    && segs[k].pos + HEADER <= pos && pos + size == segs[k].pos + segs[k].size <= |d.pool|
  }

  lemma ReadingNext(d: Disk, segs: seq<Segment>, k: nat, next: nat, pos: nat)
    requires Reading(d, segs, k, next, pos, 0) && k + 1 < |segs|
    ensures var g := segs[k + 1];
            && Reading(d, segs, k + 1, NextOid(segs, k + 1), g.pos + HEADER, g.size - HEADER)
            && Left(d, segs, k, pos, 0) == Left(d, segs, k + 1, g.pos + HEADER, g.size - HEADER)
            && (g.size > HEADER || k + 2 == |segs|)
  {
    Reads(d, segs, k + 1);
    hide Chain, Left;
    LeftNext(d, segs, k, pos);
  }

  lemma LeftNext(d: Disk, segs: seq<Segment>, k: nat, pos: nat)
    requires k + 1 < |segs| && pos <= |d.pool|
    requires HEADER <= segs[k + 1].size && segs[k + 1].pos + segs[k + 1].size <= |d.pool|
    ensures Left(d, segs, k, pos, 0) == Left(d, segs, k + 1, segs[k + 1].pos + HEADER, segs[k + 1].size - HEADER)
  {
    var g := segs[k + 1];
    var start, n := g.pos + HEADER, g.size - HEADER;
    DataFirst(d.pool, segs, k + 1);
    assert Piece(d.pool, g) == d.pool[start..start + n];
    hide Data, Piece;
    assert Left(d, segs, k + 1, start, n) == d.pool[start..start + n] + Data(d.pool, segs[k + 2..]);
    NothingBefore(d.pool, pos, Data(d.pool, segs[k + 1..]));
  }

  lemma NothingBefore(pool: seq<Byte>, pos: nat, rest: seq<Byte>)
    requires pos <= |pool|
    ensures pool[pos..pos + 0] + rest == rest
  {
  }

  lemma DataFirst(pool: seq<Byte>, segs: seq<Segment>, k: nat)
    requires k < |segs|
    ensures Data(pool, segs[k..]) == Piece(pool, segs[k]) + Data(pool, segs[k + 1..])
  {
    assert segs[k..][1..] == segs[k + 1..];
  }

  lemma ReadingKnown(d: Disk, segs: seq<Segment>, k: nat, next: nat, pos: nat, size: nat)
    requires Reading(d, segs, k, next, pos, size)
    ensures Chain(d, segs) && k < |segs| && next == NextOid(segs, k) && pos + size <= |d.pool|
    ensures size > 0 ==> Left(d, segs, k, pos, size) != []
    ensures size == 0 && k + 1 == |segs| ==> Left(d, segs, k, pos, size) == []
  {
  }

  lemma ReadingPart(d: Disk, segs: seq<Segment>, k: nat, next: nat, pos: nat, size: nat, n: nat)
    requires Reading(d, segs, k, next, pos, size) && n <= size
    ensures Reading(d, segs, k, next, pos + n, size - n)
    ensures Left(d, segs, k, pos, size) == d.pool[pos..pos + n] + Left(d, segs, k, pos + n, size - n)
  {
    hide Chain, Data;
    PoolParts(d.pool, pos, n, size, Data(d.pool, segs[k + 1..]));
  }

  lemma PoolParts(pool: seq<Byte>, pos: nat, n: nat, size: nat, rest: seq<Byte>)
    requires n <= size && pos + size <= |pool|
    ensures pool[pos..pos + size] + rest == pool[pos..pos + n] + (pool[pos + n..pos + size] + rest)
  {
  }

  class ReadIterator {
    const db: Database
    var size: nat
    var pos: nat
    var next: nat
    var closed: bool
    ghost var segs: seq<Segment>
    ghost var k: nat                 // the segment being read

    ghost predicate Valid()
      reads this, db
    {
      db.Valid() && !closed && Reading(db.Now(), segs, k, next, pos, size)
    }

    /** The bytes still to come. */
    ghost function Remaining(): seq<Byte>
      reads this, db
    {
      Left(db.Now(), segs, k, pos, size)
    }

    /** getReadIterator on a closed blob. */
    constructor (db: Database, first: nat, ghost segs: seq<Segment>)
      requires db.Valid() && Chain(db.Now(), segs) && segs[0].oid == first
      requires forall i :: 0 < i < |segs| - 1 ==> segs[i].size > HEADER
      ensures Valid() && Remaining() == Data(db.pool, segs) && this.db == db
    {
      Reads(db.Now(), segs, 0);
      this.db := db;
      var rec := db.records[db.index[first]];
      pos := db.index[first] + HEADER;
      size := rec.size - HEADER;
      next := rec.next;
      closed := false;
      this.segs := segs;
      k := 0;
      assert segs == [segs[0]] + segs[1..];
    }

    /** getAvailableSize: 0 only at the end. */
    method GetAvailableSize() returns (n: nat)
      requires Valid()
      modifies this
      ensures Valid() && n == size && Remaining() == old(Remaining())
      ensures n == 0 <==> Remaining() == []
    {
      hide Chain, Reading, Left;
      ReadingKnown(db.Now(), segs, k, next, pos, size);
      OnlyLastEnds(db.Now(), segs, k);
      if size == 0 && next != 0 {
        Reads(db.Now(), segs, k + 1);
        ReadingNext(db.Now(), segs, k, next, pos);
        pos := db.index[next] + HEADER;
        var rec := db.records[db.index[next]];
        size := rec.size - HEADER;
        next := rec.next;
        k := k + 1;
      }
      ReadingKnown(db.Now(), segs, k, next, pos, size);
      OnlyLastEnds(db.Now(), segs, k);
      n := size;
    }

    /** read: as many of the bytes to come as asked for, in order, or all there are. */
    method Read(bufSize: nat) returns (dst: seq<Byte>)
      requires Valid()
      modifies this
      ensures Valid()
      ensures var n := if bufSize <= |old(Remaining())| then bufSize else |old(Remaining())|;
              dst == old(Remaining())[..n] && Remaining() == old(Remaining())[n..]
    {
      hide Chain, Reading, Left;
      dst := [];
      var want: nat := bufSize;
      while want != 0
        invariant Valid() && dst + Remaining() == old(Remaining())
        invariant want + |dst| == bufSize
      {
        var left := GetAvailableSize();
        if left == 0 {
          break;
        }
        var offs := pos % PAGE;
        var available := PAGE - offs;
        if available > size {
          available := size;
        }
        if available > want {
          available := want;
        }
        ReadingKnown(db.Now(), segs, k, next, pos, size);
        ReadingPart(db.Now(), segs, k, next, pos, size, available);
        ghost var before := dst;
        dst := dst + db.pool[pos..pos + available];
        pos := pos + available;
        size := size - available;
        want := want - available;
      }
      assert old(Remaining())[..|dst|] == dst && old(Remaining())[|dst|..] == Remaining();
    }

    /** close. */
    method Close()
      modifies this`closed, this`next, this`size
      ensures closed && next == 0 && size == 0
    {
      closed := true;
      next := 0;
      size := 0;
    }
  }

  // ----- from creating a blob to reading it

  /** Some sequences, one after the other. */
  function Flat(parts: seq<seq<Byte>>): seq<Byte> {
    if parts == [] then [] else Flat(parts[..|parts| - 1]) + parts[|parts| - 1]
  }

  function Sum(ns: seq<nat>): nat {
    if ns == [] then 0 else Sum(ns[..|ns| - 1]) + ns[|ns| - 1]
  }

  function Min(a: nat, b: nat): nat {
    if a <= b then a else b
  }

  /** The parts that come of reading a text in the given portions. */
  predicate Portions(text: seq<Byte>, cuts: seq<nat>, parts: seq<seq<Byte>>) {
    && |parts| == |cuts|
    && (cuts != [] ==>
          var n := |cuts| - 1;
          && Portions(text, cuts[..n], parts[..n])
          && parts[n] == text[Min(Sum(cuts[..n]), |text|)..Min(Sum(cuts[..n]) + cuts[n], |text|)])
  }

  /** The database holds a new blob with the given data, and is otherwise as it was. */
  ghost predicate Added(d0: Disk, d: Disk, segs: seq<Segment>) {
    && Untouched(d0, d, {}) && Taken(d0, d, segs) && Space(segs) !! d0.used
  }

  lemma CreatedAdded(d0: Disk, d: Disk, segs: seq<Segment>)
    requires Untouched(d0, d, {}) && Space(segs) !! d0.used && d.used == d0.used + Space(segs)
    ensures Added(d0, d, segs)
  {
    hide Untouched, Space;
  }

  /** Writing takes free space for new segments, and leaves what is not the blob's untouched. */
  lemma WriteAdded(d0: Disk, d: Disk, d': Disk, before: seq<Segment>, segs: seq<Segment>)
    requires Added(d0, d, before) && before <= segs
    requires Beside(d, d', segs, Space(before))
    ensures Added(d0, d', segs)
  {
    UntouchedThen(d0, d, d', Space(before));
    SpaceAway(d, segs, Space(before));
    hide Space, Untouched;
    assert segs == before + segs[|before|..];
    SpaceAppend(before, segs[|before|..]);
    Sets.SameNumbers(d'.used, d0.used + Space(segs));
  }

  lemma CloseAdded(d0: Disk, d: Disk, d': Disk, before: seq<Segment>, segs: seq<Segment>)
    requires Added(d0, d, before) && Untouched(d, d', Space(before))
    requires Space(segs) <= Space(before) && d'.used == d.used - Space(before) + Space(segs)
    ensures Added(d0, d', segs)
  {
    UntouchedThen(d0, d, d', Space(before));
    hide Space, Untouched;
    Sets.SameNumbers(d'.used, d0.used + Space(segs));
  }

  lemma UntouchedThen(d0: Disk, d: Disk, d': Disk, space: set<nat>)
    requires Untouched(d0, d, {}) && Untouched(d, d', space) && space !! d0.used
    ensures Untouched(d0, d', {})
  {
    assert forall q :: q in d0.used ==> q in d0.used - {} && q in d.used - space;
  }

  lemma {:induction false} SpaceAway(d: Disk, segs: seq<Segment>, space: set<nat>)
    requires Away(d, segs, space)
    ensures Space(segs) !! d.used - space
  {
    hide Extent;
    if segs != [] {
      assert segs[0] in segs;
      SpaceAway(d, segs[1..], space);
    }
  }

  /** One portion more. */
  lemma PortionsAdd(text: seq<Byte>, cuts: seq<nat>, j: nat, parts: seq<seq<Byte>>)
    requires j < |cuts| && |parts| == j + 1 && Portions(text, cuts[..j], parts[..j])
    requires var rest := text[Min(Sum(cuts[..j]), |text|)..];
             parts[j] == rest[..Min(cuts[j], |rest|)]
    ensures Portions(text, cuts[..j + 1], parts)
    ensures var rest := text[Min(Sum(cuts[..j]), |text|)..];
            text[Min(Sum(cuts[..j + 1]), |text|)..] == rest[Min(cuts[j], |rest|)..]
  {
    SumAdd(cuts, j);
    PartOfRest(text, Sum(cuts[..j]), cuts[j]);
    hide Sum, Min;
    assert cuts[..j + 1][j] == cuts[j];
  }

  lemma PartOfRest(text: seq<Byte>, done: nat, n: nat)
    ensures var rest, from, to := text[Min(done, |text|)..], Min(done, |text|), Min(done + n, |text|);
            && rest[..Min(n, |rest|)] == text[from..to] && rest[Min(n, |rest|)..] == text[to..]
  {
  }

  lemma NoPortions(text: seq<Byte>, cuts: seq<nat>)
    ensures Portions(text, cuts[..0], []) && Sum(cuts[..0]) == 0
  {
  }

  lemma SumAdd(cuts: seq<nat>, j: nat)
    requires j < |cuts|
    ensures cuts[..j + 1][..j] == cuts[..j] && Sum(cuts[..j + 1]) == Sum(cuts[..j]) + cuts[j]
  {
    assert cuts[..j + 1][..j] == cuts[..j];
  }

  /** What is written to a new blob in any chunks is what is read from it in any portions, and
      getSize measures it; the quanta in use afterwards are those of the blob's segments and of
      what was in use before, which is untouched. */
  method StoreAndLoad(db: Database, expected: nat, maxExtent: nat, chunks: seq<seq<Byte>>, cuts: seq<nat>)
    returns (oid: nat, size: nat, parts: seq<seq<Byte>>, ghost segs: seq<Segment>)
    requires db.Valid() && maxExtent > 0
    modifies db
    ensures db.Valid() && Chain(db.Now(), segs) && segs[0].oid == oid && Data(db.pool, segs) == Flat(chunks)
    ensures size == |Flat(chunks)|
    ensures Portions(Flat(chunks), cuts, parts)
    ensures Added(old(db.Now()), db.Now(), segs)
  {
    hide Chain, Data, Added, Roomy, Portions;
    oid, segs := StoreNew(db, expected, maxExtent, chunks);
    size := GetSize(db, oid, segs);
    parts := Load(db, oid, cuts, segs);
  }

  method StoreNew(db: Database, expected: nat, maxExtent: nat, chunks: seq<seq<Byte>>)
    returns (oid: nat, ghost segs: seq<Segment>)
    requires db.Valid() && maxExtent > 0
    modifies db
    ensures db.Valid() && Chain(db.Now(), segs) && Roomy(segs) && segs[0].oid == oid
    ensures Data(db.pool, segs) == Flat(chunks)
    ensures Added(old(db.Now()), db.Now(), segs)
  {
    hide Chain, Data, Untouched, Beside, Added, Roomy, Extendable, Space, Pages;
    ghost var d0 := db.Now();
    oid, segs := Create(db, expected);
    PagesExtendable(segs[0].size, Pages(maxExtent));
    CreatedAdded(d0, db.Now(), segs);
    var w := new WriteIterator(db, oid, maxExtent, segs);
    var i := 0;
    while i < |chunks|
      invariant 0 <= i <= |chunks| && w.db == db && fresh(w)
      invariant w.Valid() && w.Started() && w.written == Flat(chunks[..i])
      invariant w.segs != [] && w.segs[0].oid == oid
      invariant Added(d0, db.Now(), w.segs)
    {
      ghost var d, before := db.Now(), w.segs;
      w.Write(chunks[i]);
      WriteAdded(d0, d, db.Now(), before, w.segs);
      assert chunks[..i + 1][..i] == chunks[..i];
      i := i + 1;
    }
    assert chunks[..i] == chunks;
    ghost var d, before := db.Now(), w.segs;
    w.Close();
    segs := w.segs;
    CloseAdded(d0, d, db.Now(), before, segs);
  }

  method Load(db: Database, oid: nat, cuts: seq<nat>, ghost segs: seq<Segment>) returns (parts: seq<seq<Byte>>)
    requires db.Valid() && Chain(db.Now(), segs) && Roomy(segs) && segs[0].oid == oid
    ensures Portions(Data(db.pool, segs), cuts, parts)
  {
    hide Chain, Data, Reading, Portions, Left, Sum;
    ghost var text := Data(db.pool, segs);
    var r := new ReadIterator(db, oid, segs);
    parts := [];
    NoPortions(text, cuts);
    while |parts| < |cuts|
      invariant |parts| <= |cuts| && r.Valid() && fresh(r) && r.db == db
      invariant r.Remaining() == text[Min(Sum(cuts[..|parts|]), |text|)..]
      invariant Portions(text, cuts[..|parts|], parts)
    {
      var j := |parts|;
      ghost var before := parts;
      var part := r.Read(cuts[j]);
      parts := parts + [part];
      assert parts[..j] == before;
      PortionsAdd(text, cuts, j, parts);
    }
    r.Close();
    assert cuts[..|parts|] == cuts;
  }
}
