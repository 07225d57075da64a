/** src/fifo/fifo.h in one thread of control: a linked queue of messages inside the shared
    heap, whose put drops the oldest message whenever the heap has no room. */
module Fifo {
  import opened Memory
  import opened HeapShape
  import opened HeapBytes
  import opened SharedHeap
  import opened Sets
  import opened Wrappers

  // Offsets in fifo_obj::header and fifo_obj::item, and their sizes.
  const TAIL := 0
  const HEAD := 4
  const LENGTH := 4
  const BUFFER := 8
  const ROOT_SIZE := 8
  const ITEM_SIZE := 12

  /** The root block is the first of the heap, and takes 16 bytes with its tags. */
  const ROOT_BLOCK := FIRST
  const ROOT_POINTER := FIRST + BLOCK_HEADER
  const ROOT_SPAN := ROOT_SIZE + BLOCK_HEADER

  datatype Item = Item(p: int, message: seq<Byte>)

  function Messages(q: seq<Item>): (r: seq<seq<Byte>>)
    ensures |r| == |q|
  {
    seq(|q|, i requires 0 <= i < |q| => q[i].message)
  }

  /** The aligned size put asks the heap for. */
  function Need(message: seq<Byte>): (r: int)
    ensures BUFFER + |message| <= r < BUFFER + |message| + 8 && r % 8 == 0
  {
    Align(ITEM_SIZE + |message| - 4)
  }

  /** The message fits beside the root block in an otherwise empty heap. */
  predicate FitsEmptyHeap(message: seq<Byte>, limit: int) {
    FIRST + ROOT_SPAN + 4 + Need(message) + BLOCK_HEADER <= limit
  }

  ghost function NextOf(q: seq<Item>, i: int): int
    requires 0 <= i < |q|
  {
    if i + 1 < |q| then q[i + 1].p else NULL
  }

  /** The bytes of one item: its link, its length and its message. */
  ghost predicate ItemStored(m: seq<Cell>, item: Item, next: int) {
    && Holds(m, item.p, next)
    && Holds(m, item.p + LENGTH, |item.message|)
    && item.p + BUFFER + |item.message| <= |m|
    && forall i :: item.p + BUFFER <= i < item.p + BUFFER + |item.message| ==>
        m[i] == Raw(item.message[i - item.p - BUFFER])
  }

  ghost predicate QueueStored(m: seq<Cell>, q: seq<Item>) {
    && Holds(m, ROOT_POINTER + HEAD, if q == [] then NULL else q[0].p)
    && (q != [] ==> Holds(m, ROOT_POINTER + TAIL, q[|q| - 1].p))
    && forall i :: 0 <= i < |q| ==> ItemStored(m, q[i], NextOf(q, i))
  }

  /** The block that holds an item. */
  function BlockOf(item: Item): int {
    item.p - BLOCK_HEADER
  }

  /** Items lie in different blocks. */
  ghost predicate Separate(q: seq<Item>) {
    forall i, j :: 0 <= i < j < |q| ==> BlockOf(q[i]) != BlockOf(q[j])
  }

  ghost predicate Roomy(s: Shape, item: Item) {
    && BlockOf(item) in Live(s) && BlockOf(item) != ROOT_BLOCK
    && BUFFER + |item.message| <= s.span[BlockOf(item)] - BLOCK_HEADER
  }

  ghost predicate InQueue(q: seq<Item>, b: int) {
    exists i :: 0 <= i < |q| && BlockOf(q[i]) == b
  }

  /** Nothing but the root and the items is live. */
  ghost predicate NoLeak(s: Shape, q: seq<Item>) {
    forall b :: b in Live(s) ==> b == ROOT_BLOCK || InQueue(q, b)
  }

  /** The live blocks are the root and one block for each item. */
  ghost predicate QueueBlocks(s: Shape, q: seq<Item>) {
    && ROOT_BLOCK in Live(s) && s.span[ROOT_BLOCK] == ROOT_SPAN
    && Separate(q)
    && (forall i :: 0 <= i < |q| ==> Roomy(s, q[i]))
    && NoLeak(s, q)
  }

  lemma ItemKept(m: seq<Cell>, m': seq<Cell>, item: Item, next: int)
    requires ItemStored(m, item, next) && |m| == |m'|
    requires forall i :: item.p <= i < item.p + BUFFER + |item.message| && 0 <= i < |m| ==> m'[i] == m[i]
    ensures ItemStored(m', item, next)
  {
  }

  /** With nothing in the queue the heap is the root block and nothing else. */
  lemma OnlyRoot(s: Heap)
    requires QueueBlocks(s, [])
    ensures s.free == {} && s.end == FIRST + ROOT_SPAN
  {
    assert forall b :: b in Live(s) ==> b == ROOT_BLOCK;
    if s.free != {} {
      var a := Pick(s.free);
      FreeNeedsLive(s, a);
    }
    assert s.free == {};
    assert EndOf(s.span, ROOT_BLOCK) == FIRST + ROOT_SPAN;
    if EndOf(s.span, ROOT_BLOCK) != s.end {
      FirstIsNotLast(s);
    }
  }

  lemma FirstIsNotLast(s: Heap)
    requires s.free == {} && ROOT_BLOCK in s.span && EndOf(s.span, ROOT_BLOCK) != s.end
    ensures exists b :: b in Live(s) && b != ROOT_BLOCK
  {
    var b := EndOf(s.span, ROOT_BLOCK);
    assert b in s.span && b !in s.free;
    assert b in Live(s);
  }

  /** Allocation beside an empty queue succeeds exactly when the message fits. */
  lemma EmptyQueueAllocates(s: Heap, message: seq<Byte>, limit: int)
    requires QueueBlocks(s, [])
    ensures Take(s, Need(message), limit).1 != NULL <==> FitsEmptyHeap(message, limit)
  {
    OnlyRoot(s);
    AlignProperties(ITEM_SIZE + |message| - 4);
    TakeWellFormed(s, Need(message), limit);
  }

  /** With the root block in place nothing larger than the empty heap's room is ever allocated. */
  lemma TooLargeNeverFits(s: Heap, message: seq<Byte>, limit: int)
    requires ROOT_BLOCK in Live(s) && s.span[ROOT_BLOCK] == ROOT_SPAN && s.end + 4 <= limit
    requires !FitsEmptyHeap(message, limit)
    ensures Take(s, Need(message), limit).1 == NULL
  {
    AlignProperties(ITEM_SIZE + |message| - 4);
    TakeWellFormed(s, Need(message), limit);
    forall n | n in s.free
      ensures !Fits(s, n, Need(message))
    {
      assert n > ROOT_BLOCK;
    }
  }

  // ----- how the queue's blocks change

  /** A newly allocated block takes the new item. */
  lemma EnqueueBlocks(s: Heap, t: Heap, q: seq<Item>, x: Item)
    requires QueueBlocks(s, q) && Allocated(s, t, BlockOf(x), Need(x.message))
    ensures QueueBlocks(t, q + [x])
  {
    AlignProperties(ITEM_SIZE + |x.message| - 4);
    forall i | 0 <= i < |q|
      ensures Roomy(t, q[i]) && BlockOf(q[i]) != BlockOf(x)
    {
      assert Roomy(s, q[i]);
    }
    EnqueueLeaksNothing(s, t, q, x);
  }

  lemma EnqueueLeaksNothing(s: Shape, t: Shape, q: seq<Item>, x: Item)
    requires NoLeak(s, q) && Live(t) == Live(s) + {BlockOf(x)}
    ensures NoLeak(t, q + [x])
  {
    var r := q + [x];
    forall b | b in Live(t) && b != ROOT_BLOCK
      ensures InQueue(r, b)
    {
      if b in Live(s) {
        var i :| 0 <= i < |q| && BlockOf(q[i]) == b;
        assert r[i] == q[i];
      } else {
        assert r[|q|] == x;
      }
    }
  }

  /** Freeing the first item's block leaves the rest. */
  lemma DequeueBlocks(s: Heap, q: seq<Item>)
    requires QueueBlocks(s, q) && q != []
    ensures BlockOf(q[0]) in Live(s)
    ensures QueueBlocks(Release(s, BlockOf(q[0])), q[1..])
  {
    var b := BlockOf(q[0]);
    assert Roomy(s, q[0]);
    ReleaseWellFormed(s, b);
    ReleaseKeepsOthers(s, b);
    DequeueKeepsRoom(s, Release(s, b), q);
    DequeueLeaksNothing(s, Release(s, b), q);
  }

  lemma DequeueKeepsRoom(s: Heap, t: Heap, q: seq<Item>)
    requires q != [] && Separate(q) && forall i :: 0 <= i < |q| ==> Roomy(s, q[i])
    requires Live(t) == Live(s) - {BlockOf(q[0])}
    requires forall a :: a in Live(t) ==> a in t.span && t.span[a] == s.span[a]
    ensures Separate(q[1..])
    ensures forall i :: 0 <= i < |q[1..]| ==> Roomy(t, q[1..][i])
  {
    forall i | 0 <= i < |q[1..]|
      ensures Roomy(t, q[1..][i])
    {
      assert q[1..][i] == q[i + 1] && Roomy(s, q[i + 1]);
    }
  }

  lemma DequeueLeaksNothing(s: Shape, t: Shape, q: seq<Item>)
    requires q != [] && NoLeak(s, q) && Live(t) == Live(s) - {BlockOf(q[0])}
    ensures NoLeak(t, q[1..])
  {
    forall b | b in Live(t) && b != ROOT_BLOCK
      ensures InQueue(q[1..], b)
    {
      var i :| 0 <= i < |q| && BlockOf(q[i]) == b;
      assert q[1..][i - 1] == q[i];
    }
  }

  // ----- how the stored queue changes

  /** Nothing outside the payloads of the queue's blocks matters to it. */
  lemma QueueKept(m: seq<Cell>, m': seq<Cell>, s: Heap, q: seq<Item>, blocks: set<int>)
    requires QueueStored(m, q) && s.end + 4 <= |m|
    requires ROOT_BLOCK in Live(s) && s.span[ROOT_BLOCK] == ROOT_SPAN
    requires forall i :: 0 <= i < |q| ==> Roomy(s, q[i])
    requires ROOT_BLOCK in blocks && forall i :: 0 <= i < |q| ==> BlockOf(q[i]) in blocks
    requires PayloadsKept(m, m', s, blocks)
    ensures QueueStored(m', q)
  {
    RootKept(m, m', s, blocks, HEAD, if q == [] then NULL else q[0].p);
    if q != [] {
      RootKept(m, m', s, blocks, TAIL, q[|q| - 1].p);
    }
    forall i | 0 <= i < |q|
      ensures ItemStored(m', q[i], NextOf(q, i))
    {
      assert ItemStored(m, q[i], NextOf(q, i)) && Roomy(s, q[i]);
      InBlockKept(m, m', s, q[i], NextOf(q, i), blocks);
    }
  }

  lemma RootKept(m: seq<Cell>, m': seq<Cell>, s: Heap, blocks: set<int>, field: int, w: int)
    requires ROOT_BLOCK in Live(s) && s.span[ROOT_BLOCK] == ROOT_SPAN && ROOT_BLOCK in blocks
    requires PayloadsKept(m, m', s, blocks)
    requires 0 <= field <= 4 && Holds(m, ROOT_POINTER + field, w)
    ensures Holds(m', ROOT_POINTER + field, w)
  {
  }

  lemma InBlockKept(m: seq<Cell>, m': seq<Cell>, s: Heap, item: Item, next: int, blocks: set<int>)
    requires ItemStored(m, item, next) && Roomy(s, item) && BlockOf(item) in blocks
    requires PayloadsKept(m, m', s, blocks)
    ensures ItemStored(m', item, next)
  {
    ItemKept(m, m', item, next);
  }

  /** An item lies behind the root object and apart from every other item. */
  lemma ItemsApart(s: Heap, a: Item, b: Item)
    requires Roomy(s, a) && Roomy(s, b) && ROOT_BLOCK in s.span && s.span[ROOT_BLOCK] == ROOT_SPAN
    ensures ROOT_POINTER + ROOT_SIZE <= a.p
    ensures BlockOf(a) != BlockOf(b) ==> a.p + BUFFER + |a.message| <= b.p || b.p + BUFFER + |b.message| <= a.p
  {
  }

  /** The links written when the queue was empty. */
  lemma FirstLinked(m0: seq<Cell>, m1: seq<Cell>, m2: seq<Cell>, s: Heap, x: Item)
    requires QueueBlocks(s, [x]) && ItemStored(m0, x, NULL)
    requires SameBeside(m0, m1, ROOT_POINTER + TAIL, ROOT_POINTER + TAIL + 4) && Holds(m1, ROOT_POINTER + TAIL, x.p)
    requires SameBeside(m1, m2, ROOT_POINTER + HEAD, ROOT_POINTER + HEAD + 4) && Holds(m2, ROOT_POINTER + HEAD, x.p)
    ensures QueueStored(m2, [x])
  {
    assert Roomy(s, [x][0]);
    ItemsApart(s, x, x);
    ItemKept(m0, m2, x, NULL);
    HoldsBeside(m1, m2, ROOT_POINTER + HEAD, ROOT_POINTER + HEAD + 4, ROOT_POINTER + TAIL, x.p);
  }

  /** The links written behind the last item. */
  lemma LastLinked(m0: seq<Cell>, m1: seq<Cell>, m2: seq<Cell>, s: Heap, q: seq<Item>, x: Item)
    requires QueueBlocks(s, q + [x]) && q != [] && QueueStored(m0, q) && ItemStored(m0, x, NULL)
    requires var last := q[|q| - 1].p; SameBeside(m0, m1, last, last + 4) && Holds(m1, last, x.p)
    requires SameBeside(m1, m2, ROOT_POINTER + TAIL, ROOT_POINTER + TAIL + 4) && Holds(m2, ROOT_POINTER + TAIL, x.p)
    ensures QueueStored(m2, q + [x])
  {
    var r := q + [x];
    var last := q[|q| - 1];
    assert r[|q| - 1] == last && r[|q|] == x;
    assert Roomy(s, r[|q| - 1]);
    ItemsApart(s, last, last);
    HoldsBeside(m0, m1, last.p, last.p + 4, ROOT_POINTER + HEAD, q[0].p);
    HoldsBeside(m1, m2, ROOT_POINTER + TAIL, ROOT_POINTER + TAIL + 4, ROOT_POINTER + HEAD, q[0].p);
    forall i | 0 <= i < |r|
      ensures ItemStored(m2, r[i], NextOf(r, i))
    {
      LastLinkedItem(m0, m1, m2, s, q, x, i);
    }
  }

  lemma LastLinkedItem(m0: seq<Cell>, m1: seq<Cell>, m2: seq<Cell>, s: Heap, q: seq<Item>, x: Item, i: nat)
    requires QueueBlocks(s, q + [x]) && q != [] && QueueStored(m0, q) && ItemStored(m0, x, NULL) && i <= |q|
    requires var last := q[|q| - 1].p; SameBeside(m0, m1, last, last + 4) && Holds(m1, last, x.p)
    requires SameBeside(m1, m2, ROOT_POINTER + TAIL, ROOT_POINTER + TAIL + 4)
    ensures ItemStored(m2, (q + [x])[i], NextOf(q + [x], i))
  {
    var r := q + [x];
    var last := q[|q| - 1];
    assert r[|q| - 1] == last;
    assert Roomy(s, r[|q| - 1]) && Roomy(s, r[i]);
    ItemsApart(s, r[i], last);
    if i == |q| - 1 {
      assert ItemStored(m0, q[i], NULL);
      Relinked(m0, m1, last, NULL, x.p);
    } else {
      assert BlockOf(r[i]) != BlockOf(last);
      assert i < |q| ==> ItemStored(m0, q[i], NextOf(q, i)) && NextOf(r, i) == NextOf(q, i);
      ItemKept(m0, m1, r[i], NextOf(r, i));
    }
    ItemKept(m1, m2, r[i], NextOf(r, i));
  }

  lemma Relinked(m0: seq<Cell>, m1: seq<Cell>, item: Item, before: int, next: int)
    requires ItemStored(m0, item, before)
    requires SameBeside(m0, m1, item.p, item.p + 4) && Holds(m1, item.p, next)
    ensures ItemStored(m1, item, next)
  {
    HoldsBeside(m0, m1, item.p, item.p + 4, item.p + LENGTH, |item.message|);
  }

  /** Moving the head on takes the first item off the queue and leaves its bytes. */
  lemma HeadMoved(m0: seq<Cell>, m1: seq<Cell>, s: Heap, q: seq<Item>)
    requires QueueBlocks(s, q) && q != [] && QueueStored(m0, q)
    requires SameBeside(m0, m1, ROOT_POINTER + HEAD, ROOT_POINTER + HEAD + 4)
    requires Holds(m1, ROOT_POINTER + HEAD, NextOf(q, 0))
    ensures QueueStored(m1, q[1..]) && ItemStored(m1, q[0], NextOf(q, 0))
  {
    forall i | 0 <= i < |q|
      ensures ItemStored(m1, q[i], NextOf(q, i))
    {
      assert ItemStored(m0, q[i], NextOf(q, i)) && Roomy(s, q[i]);
      ItemsApart(s, q[i], q[i]);
      ItemKept(m0, m1, q[i], NextOf(q, i));
    }
    HoldsBeside(m0, m1, ROOT_POINTER + HEAD, ROOT_POINTER + HEAD + 4, ROOT_POINTER + TAIL, q[|q| - 1].p);
    forall i | 0 <= i < |q[1..]|
      ensures ItemStored(m1, q[1..][i], NextOf(q[1..], i))
    {
      assert ItemStored(m1, q[i + 1], NextOf(q, i + 1));
    }
  }

  /** The heap after the first k items have been freed. */
  ghost function AfterDrops(s: Shape, q: seq<Item>, k: nat): Shape
    requires k <= |q|
  {
    if k == 0 then s
    else
      var t := AfterDrops(s, q, k - 1);
      if BlockOf(q[k - 1]) in t.span then Release(t, BlockOf(q[k - 1])) else t
  }

  ghost predicate Full(s: Shape, message: seq<Byte>, limit: int) {
    WellFormed(s) && Take(s, Need(message), limit).1 == NULL
  }

  /** Allocation fails before each of the first k drops. */
  ghost predicate EachDropNeeded(s: Shape, q: seq<Item>, k: nat, message: seq<Byte>, limit: int)
    requires k <= |q|
  {
    forall j :: 0 <= j < k ==> Full(AfterDrops(s, q, j), message, limit)
  }

  /** A heap file and the queue in it. */
  datatype Image = Closed | Open(m: seq<Cell>, s: Shape, q: seq<Item>)

  ghost predicate Consistent(i: Image) {
    i.Open? ==> Holds(i.m, ROOT, ROOT_POINTER) && QueueBlocks(i.s, i.q) && QueueStored(i.m, i.q)
  }

  type QueueImage = i: Image | Consistent(i) ghost witness Closed

  class FifoObj {
    const shmem: SharedMemory
    var notEmpty: nat            // the count of semaphore not_empty
    var notFull: bool            // whether event not_full is signalled
    ghost var queue: seq<Item>
    ghost var image: QueueImage

    /** The heap holds the queue. */
    ghost predicate Stored()
      reads this, shmem, shmem.mem
    {
      shmem.Valid() && image == Open(shmem.mem[..], shmem.shape, queue)
    }

    /** The semaphore counts the messages. */
    ghost predicate Valid()
      reads this, shmem, shmem.mem
    {
      Stored() && notEmpty == |queue|
    }

    /** open of a new file with room for the root object. */
    constructor (maxSize: int)
      requires FIRST + ROOT_SPAN + 4 <= maxSize < SIZE_LIMIT
      ensures Valid() && queue == [] && shmem.limit == maxSize && !notFull
      ensures fresh(shmem) && fresh(shmem.mem)
    {
      shmem := new SharedMemory(maxSize);
      notEmpty := 0;
      notFull := false;
      queue := [];
      image := Closed;
      new;
      NewRoot();
    }

    /** The root object of a new file: allocate it, clear its links, make it the root. */
    method NewRoot()
      requires shmem.Valid() && shmem.shape == Initial() && FIRST + ROOT_SPAN + 4 <= shmem.limit && queue == []
      modifies this`image, shmem, shmem.mem
      ensures Stored()
    {
      InitialAllocates(shmem.shape, shmem.limit);
      var root := shmem.Allocate(ROOT_SIZE, false);
      shmem.StoreInt(ROOT_BLOCK, root + TAIL, NULL);
      shmem.StoreInt(ROOT_BLOCK, root + HEAD, NULL);
      shmem.SetRoot(root);
      image := Open(shmem.mem[..], shmem.shape, queue);
    }

    /** item::store. */
    method StoreItem(ip: int, message: seq<Byte>)
      requires shmem.Valid() && Roomy(shmem.shape, Item(ip, message))
      modifies shmem`file, shmem.mem
      ensures shmem.Valid() && ItemStored(shmem.mem[..], Item(ip, message), NULL)
      ensures PayloadsKept(old(shmem.mem[..]), shmem.mem[..], shmem.shape, Live(shmem.shape) - {ip - BLOCK_HEADER})
    {
      ghost var m0 := shmem.mem[..];
      ghost var b := ip - BLOCK_HEADER;
      shmem.StoreInt(b, ip + LENGTH, |message|);
      ghost var m1 := shmem.mem[..];
      shmem.StoreInt(b, ip, NULL);
      ghost var m2 := shmem.mem[..];
      HoldsBeside(m1, m2, ip, ip + 4, ip + LENGTH, |message|);
      shmem.StoreBytes(b, ip + BUFFER, message);
      ghost var m3 := shmem.mem[..];
      HoldsBeside(m2, m3, ip + BUFFER, ip + BUFFER + |message|, ip + LENGTH, |message|);
      HoldsBeside(m2, m3, ip + BUFFER, ip + BUFFER + |message|, ip, NULL);
      assert SameBeside(m0, m3, b + BLOCK_HEADER, b + shmem.shape.span[b]);
      PayloadsBeside(m0, m3, shmem.shape, b);
    }

    /** header::enqueue. */
    method Enqueue(message: seq<Byte>) returns (ok: bool)
      requires Stored() && ITEM_SIZE + |message| <= MAX_REQUEST
      modifies this`notFull, this`queue, this`image, shmem, shmem.mem
      ensures Stored()
      ensures ok <==> Take(old(shmem.shape), Need(message), shmem.limit).1 != NULL
      ensures ok ==> |queue| == |old(queue)| + 1 && queue[..|old(queue)|] == old(queue) &&
                     queue[|old(queue)|].message == message
      ensures ok ==> notFull == old(notFull)
      ensures !ok ==> queue == old(queue) && shmem.shape == old(shmem.shape) && !notFull
    {
      hide Release, Take, Represents, QueueStored, NoLeak, Separate, Tiled;
      ghost var s, q := shmem.shape, queue;
      ghost var m0 := shmem.mem[..];
      var ip := shmem.Allocate(ITEM_SIZE + |message| - 4, false);
      AlignProperties(ITEM_SIZE + |message| - 4);
      TakeWellFormed(s, Need(message), shmem.limit);
      if ip == NULL {
        notFull := false;
        return false;
      }
      ghost var x := Item(ip, message);
      ghost var m1 := shmem.mem[..];
      AllocatedKeeps(m0, m1, s, q);
      ItemAllocated(s, shmem.shape, q, x, shmem.limit);
      StoreItem(ip, message);
      EnqueueKeeps(m1, shmem.mem[..], shmem.shape, q, x);
      Link(ip, x);
      queue := q + [x];
      image := Open(shmem.mem[..], shmem.shape, queue);
      return true;
    }

    /** The links of enqueue. */
    method Link(ip: int, ghost x: Item)
      requires shmem.Valid() && ip == x.p && QueueBlocks(shmem.shape, queue + [x])
      requires Holds(shmem.mem[..], ROOT, ROOT_POINTER)
      requires QueueStored(shmem.mem[..], queue) && ItemStored(shmem.mem[..], x, NULL)
      modifies shmem`file, shmem.mem
      ensures shmem.Valid() && Holds(shmem.mem[..], ROOT, ROOT_POINTER)
      ensures QueueStored(shmem.mem[..], queue + [x])
    {
      hide Represents, NoLeak, Separate, ItemStored, Roomy;
      ghost var first := if queue == [] then NULL else queue[0].p;
      var head := shmem.GetInt(ROOT_POINTER + HEAD, first);
      HeadNotNull(shmem.shape, queue + [x]);
      if head == NULL {
        assert queue + [x] == [x];
        LinkFirst(ip, x);
      } else {
        LinkLast(ip, x);
      }
    }

    method LinkFirst(ip: int, ghost x: Item)
      requires shmem.Valid() && ip == x.p && QueueBlocks(shmem.shape, [x])
      requires Holds(shmem.mem[..], ROOT, ROOT_POINTER) && ItemStored(shmem.mem[..], x, NULL)
      modifies shmem`file, shmem.mem
      ensures shmem.Valid() && Holds(shmem.mem[..], ROOT, ROOT_POINTER)
      ensures QueueStored(shmem.mem[..], [x])
    {
      hide Represents, NoLeak, Separate;
      ghost var m0 := shmem.mem[..];
      assert Roomy(shmem.shape, [x][0]);
      ItemIsInt(m0, shmem.shape, x);
      shmem.StoreInt(ROOT_BLOCK, ROOT_POINTER + TAIL, ip);
      ghost var m1 := shmem.mem[..];
      shmem.StoreInt(ROOT_BLOCK, ROOT_POINTER + HEAD, ip);
      FirstLinked(m0, m1, shmem.mem[..], shmem.shape, x);
    }

    method LinkLast(ip: int, ghost x: Item)
      requires shmem.Valid() && ip == x.p && queue != [] && QueueBlocks(shmem.shape, queue + [x])
      requires Holds(shmem.mem[..], ROOT, ROOT_POINTER)
      requires QueueStored(shmem.mem[..], queue) && ItemStored(shmem.mem[..], x, NULL)
      modifies shmem`file, shmem.mem
      ensures shmem.Valid() && Holds(shmem.mem[..], ROOT, ROOT_POINTER)
      ensures QueueStored(shmem.mem[..], queue + [x])
    {
      hide Represents, NoLeak, Separate;
      ghost var m0 := shmem.mem[..];
      ghost var last := queue[|queue| - 1];
      assert (queue + [x])[|queue|] == x && Roomy(shmem.shape, (queue + [x])[|queue|]);
      assert (queue + [x])[|queue| - 1] == last && Roomy(shmem.shape, (queue + [x])[|queue| - 1]);
      ItemIsInt(m0, shmem.shape, x);
      var tail := shmem.GetInt(ROOT_POINTER + TAIL, last.p);
      shmem.StoreInt(BlockOf(last), tail, ip);
      ghost var m1 := shmem.mem[..];
      shmem.StoreInt(ROOT_BLOCK, ROOT_POINTER + TAIL, ip);
      LastLinked(m0, m1, shmem.mem[..], shmem.shape, queue, x);
    }

    /** header::dequeue. None is the -1 of an empty queue. */
    method Dequeue(bufSize: nat) returns (r: Option<seq<Byte>>)
      requires Stored()
      modifies this`queue, this`image, shmem, shmem.mem
      ensures Stored()
      ensures r == None <==> old(queue) == []
      ensures r == None ==> queue == [] && shmem.shape == old(shmem.shape)
      ensures r.Some? ==> queue == old(queue)[1..] && shmem.shape == Release(old(shmem.shape), BlockOf(old(queue)[0]))
      ensures r.Some? ==> var sent := old(queue)[0].message;
                          r.value == if |sent| <= bufSize then sent else sent[..bufSize]
    {
      hide Release, NoLeak, Separate;
      ghost var s, q := shmem.shape, queue;
      ghost var m0 := shmem.mem[..];
      ghost var first := if q == [] then NULL else q[0].p;
      var ip := shmem.GetInt(ROOT_POINTER + HEAD, first);
      HeadNotNull(s, q);
      if ip == NULL {
        return None;
      }
      assert ItemStored(m0, q[0], NextOf(q, 0)) && Roomy(s, q[0]);
      var next := shmem.GetInt(ip, NextOf(q, 0));
      shmem.StoreInt(ROOT_BLOCK, ROOT_POINTER + HEAD, next);
      ghost var m1 := shmem.mem[..];
      HeadMoved(m0, m1, s, q);
      var stored := shmem.GetInt(ip + LENGTH, |q[0].message|);
      var length := if stored < bufSize then stored else bufSize;
      var bytes := shmem.LoadBytes(ip + BUFFER, length, q[0].message);
      DequeueBlocks(s, q);
      shmem.Free(ip);
      queue := q[1..];
      DequeueKeeps(m1, shmem.mem[..], s, shmem.shape, q);
      image := Open(shmem.mem[..], shmem.shape, queue);
      return Some(bytes);
    }

    /** put. The result tells whether the message was stored; if not, put waits for ever on
        not_full, which nobody else can signal in one thread of control. */
    method Put(message: seq<Byte>) returns (stored: bool, ghost dropped: nat)
      requires Valid() && ITEM_SIZE + |message| <= MAX_REQUEST
      modifies this, shmem, shmem.mem
      ensures stored ==> Valid()
      ensures stored <==> FitsEmptyHeap(message, shmem.limit)
      ensures dropped <= |old(queue)|
      ensures stored ==> Messages(queue) == Messages(old(queue))[dropped..] + [message]
      ensures EachDropNeeded(old(shmem.shape), old(queue), dropped, message, shmem.limit)
      ensures stored ==> (notFull <==> dropped > 0 || old(notFull))
      ensures !stored ==> Stored() && queue == [] && notEmpty == 0 && !notFull
    {
      hide Release, Take, WellFormed, Represents, QueueStored, NoLeak, Separate;
      ghost var s0, q0 := shmem.shape, queue;
      dropped := 0;
      while true
        invariant Valid() && dropped <= |q0| && queue == q0[dropped..]
        invariant shmem.shape == AfterDrops(s0, q0, dropped)
        invariant EachDropNeeded(s0, q0, dropped, message, shmem.limit)
        invariant if dropped > 0 then notFull else notFull == old(notFull)
        decreases |queue|
      {
        ghost var s, m := shmem.shape, shmem.mem[..];
        var ok := Enqueue(message);
        if ok {
          NothingTooLarge(m, s, message, shmem.limit);
          MessagesAppended(q0, dropped, queue, message);
          break;
        }
        if notEmpty > 0 {
          notEmpty := notEmpty - 1;
          assert queue[0] == q0[dropped];
          var discarded := Dequeue(|message|);
          notFull := true;
          dropped := dropped + 1;
        }
        if !notFull {
          EmptyQueueAllocates(s, message, shmem.limit);
          return false, dropped;
        }
      }
      notEmpty := notEmpty + 1;
      stored := true;
    }

    /** get, giving up at once when there is no message. */
    method Get(bufSize: nat) returns (r: Option<seq<Byte>>)
      requires Valid()
      modifies this, shmem, shmem.mem
      ensures Valid()
      ensures r == None <==> old(queue) == []
      ensures r == None ==> queue == [] && notFull == old(notFull)
      ensures r.Some? ==> queue == old(queue)[1..] && notFull
      ensures r.Some? ==> var sent := old(queue)[0].message;
                          r.value == if |sent| <= bufSize then sent else sent[..bufSize]
    {
      if notEmpty > 0 {
        notEmpty := notEmpty - 1;
        r := Dequeue(bufSize);
        notFull := true;
      } else {
        r := None;
      }
    }
  }

  lemma InitialAllocates(s: Heap, limit: int)
    requires s == Initial() && FIRST + ROOT_SPAN + 4 <= limit
    ensures Take(s, Align(ROOT_SIZE), limit) == (Grow(s, ROOT_SIZE), ROOT_BLOCK)
    ensures Live(Grow(s, ROOT_SIZE)) == {ROOT_BLOCK} && QueueBlocks(Grow(s, ROOT_SIZE), [])
  {
    SearchOutcome(s, ROOT_SIZE);
  }

  lemma AllocatedKeeps(m: seq<Cell>, m': seq<Cell>, s: Heap, q: seq<Item>)
    requires QueueBlocks(s, q) && QueueStored(m, q) && Represents(m, s)
    requires Holds(m, ROOT, ROOT_POINTER) && PayloadsKept(m, m', s, Live(s))
    ensures QueueStored(m', q) && Holds(m', ROOT, ROOT_POINTER)
  {
    QueueKept(m, m', s, q, Live(s));
  }

  lemma ItemAllocated(s: Heap, t: Heap, q: seq<Item>, x: Item, limit: int)
    requires QueueBlocks(s, q) && x.p != NULL
    requires var (u, b) := Take(s, Need(x.message), limit);
             t == u && x.p == if b == NULL then NULL else b + BLOCK_HEADER
    ensures QueueBlocks(t, q + [x]) && (q + [x])[|q|] == x && Roomy(t, x)
  {
    AlignProperties(ITEM_SIZE + |x.message| - 4);
    TakeAllocates(s, Need(x.message), limit);
    EnqueueBlocks(s, t, q, x);
    assert Roomy(t, (q + [x])[|q|]);
  }

  lemma PayloadsBeside(m: seq<Cell>, m': seq<Cell>, s: Heap, b: int)
    requires b in Live(s) && SameBeside(m, m', b + BLOCK_HEADER, b + s.span[b])
    ensures PayloadsKept(m, m', s, Live(s) - {b})
  {
  }

  /** Writing the new item leaves the queue stored. */
  lemma EnqueueKeeps(m: seq<Cell>, m': seq<Cell>, t: Heap, q: seq<Item>, x: Item)
    requires QueueStored(m, q) && QueueBlocks(t, q + [x]) && Represents(m, t)
    requires PayloadsKept(m, m', t, Live(t) - {BlockOf(x)})
    ensures QueueStored(m', q)
  {
    var r := q + [x];
    assert r[|q|] == x && Roomy(t, r[|q|]);
    forall i | 0 <= i < |q|
      ensures Roomy(t, q[i]) && BlockOf(q[i]) != BlockOf(x)
    {
      assert r[i] == q[i];
    }
    QueueKept(m, m', t, q, Live(t) - {BlockOf(x)});
  }

  /** Freeing the first item leaves the rest of the queue stored. */
  lemma DequeueKeeps(m: seq<Cell>, m': seq<Cell>, s: Heap, t: Heap, q: seq<Item>)
    requires q != [] && QueueBlocks(s, q) && QueueBlocks(t, q[1..]) && QueueStored(m, q[1..]) && s.end + 4 <= |m|
    requires PayloadsKept(m, m', s, Live(t))
    ensures QueueStored(m', q[1..])
  {
    forall i | 0 <= i < |q[1..]|
      ensures Roomy(s, q[1..][i]) && BlockOf(q[1..][i]) in Live(t)
    {
      assert Roomy(t, q[1..][i]) && Roomy(s, q[i + 1]);
    }
    QueueKept(m, m', s, q[1..], Live(t));
  }

  lemma ItemIsInt(m: seq<Cell>, s: Heap, x: Item)
    requires Represents(m, s) && Roomy(s, x)
    ensures IsInt(x.p)
  {
  }

  lemma HeadNotNull(s: Heap, q: seq<Item>)
    requires QueueBlocks(s, q)
    ensures q != [] ==> q[0].p != NULL
  {
    assert q != [] ==> Roomy(s, q[0]);
  }

  lemma NothingTooLarge(m: seq<Cell>, s: Heap, message: seq<Byte>, limit: int)
    requires Represents(m, s) && |m| == limit
    requires ROOT_BLOCK in Live(s) && s.span[ROOT_BLOCK] == ROOT_SPAN
    requires Take(s, Need(message), limit).1 != NULL
    ensures FitsEmptyHeap(message, limit)
  {
    if !FitsEmptyHeap(message, limit) {
      TooLargeNeverFits(s, message, limit);
    }
  }

  lemma MessagesAppended(q0: seq<Item>, k: nat, q: seq<Item>, message: seq<Byte>)
    requires k <= |q0| && |q| == |q0| - k + 1 && q[..|q| - 1] == q0[k..] && q[|q| - 1].message == message
    ensures Messages(q) == Messages(q0)[k..] + [message]
  {
    assert forall i :: 0 <= i < |q0| - k ==> q[i] == q[..|q| - 1][i] == q0[k + i];
  }
}
