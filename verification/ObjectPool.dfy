/** Pools of equal-size objects whose free list is threaded through the memory of the free objects. */
module ObjectPooling {
  import opened Extents

  const POINTER_SIZE: nat := 4

  /** Start of the `k`-th object of a chunk. */
  function Slot(chunk: nat, size: nat, k: nat): nat {
    if k == 0 then chunk else Slot(chunk, size, k - 1) + size
  }

  function Slots(chunk: nat, size: nat, count: nat): seq<nat> {
    seq(count, k requires 0 <= k => Slot(chunk, size, k))
  }

  /** Equal-size objects as stretches of memory. */
  function Blocks(objects: set<nat>, size: nat): map<nat, nat> {
    map a | a in objects :: size
  }

  lemma {:induction false} SlotsApart(chunk: nat, size: nat, k: nat, l: nat)
    requires k < l
    ensures Slot(chunk, size, k) + size <= Slot(chunk, size, l)
  {
    if k < l - 1 {
      SlotsApart(chunk, size, k, l - 1);
    }
  }

  /** What the `i`-th node of a threaded list holds. */
  function NextOf(nodes: seq<nat>, i: nat): nat {
    if i + 1 < |nodes| then nodes[i + 1] else 0
  }

  /** The nodes are threaded in order: each holds the address of the next, the last one holds null. */
  predicate Linked(memory: map<nat, nat>, head: nat, nodes: seq<nat>) {
    && head == (if nodes == [] then 0 else nodes[0])
    && forall i :: 0 <= i < |nodes| ==> nodes[i] in memory && memory[nodes[i]] == NextOf(nodes, i)
  }

  /** Where `hops` next pointers lead from `head`; null leads nowhere else. */
  function Follow(memory: map<nat, nat>, head: nat, hops: nat): nat {
    if hops == 0 then head
    else
      var a := Follow(memory, head, hops - 1);
      if a in memory && a != 0 then memory[a] else 0
  }

  /** A threaded list is acyclic: following it visits the nodes in order, then null for good. */
  lemma {:induction false} ThreadEnds(memory: map<nat, nat>, head: nat, nodes: seq<nat>, hops: nat)
    requires Linked(memory, head, nodes) && 0 !in nodes
    ensures Follow(memory, head, hops) == if hops < |nodes| then nodes[hops] else 0
  {
    if hops > 0 {
      ThreadEnds(memory, head, nodes, hops - 1);
    }
  }

  /** The nodes of a threaded list are the only ones: the head and the memory determine them. */
  lemma ThreadUnique(memory: map<nat, nat>, head: nat, one: seq<nat>, other: seq<nat>)
    requires Linked(memory, head, one) && Linked(memory, head, other) && 0 !in one && 0 !in other
    ensures one == other
  {
    forall k: nat
      ensures (if k < |one| then one[k] else 0) == (if k < |other| then other[k] else 0)
    {
      ThreadEnds(memory, head, one, k);
      ThreadEnds(memory, head, other, k);
    }
    ThreadEnds(memory, head, one, |other|);
    ThreadEnds(memory, head, other, |other|);
    ThreadEnds(memory, head, one, |one|);
    ThreadEnds(memory, head, other, |one|);
  }

  ghost predicate Chained(memory: map<nat, nat>, chunk: nat, size: nat, i: nat) {
    forall k: nat :: k < i ==> Slot(chunk, size, k) in memory && memory[Slot(chunk, size, k)] == Slot(chunk, size, k + 1)
  }

  /** The first `i` objects of the chunk have been threaded to the next one and nothing else has been written. */
  ghost predicate Threaded(before: map<nat, nat>, after: map<nat, nat>, chunk: nat, size: nat, i: nat) {
    && (forall a :: a in after <==> a in before || a in Slots(chunk, size, i))
    && (forall a :: a in before ==> a in after && after[a] == before[a])
    && Chained(after, chunk, size, i)
  }

  lemma SlotsGrow(chunk: nat, size: nat, i: nat)
    requires 0 < size
    ensures Slots(chunk, size, i + 1) == Slots(chunk, size, i) + [Slot(chunk, size, i)]
    ensures forall k: nat :: k < i ==> Slot(chunk, size, k) != Slot(chunk, size, i)
    ensures forall a :: a in Slots(chunk, size, i + 1) <==> a in Slots(chunk, size, i) || a == Slot(chunk, size, i)
  {
    forall k: nat | k < i
      ensures Slot(chunk, size, k) != Slot(chunk, size, i)
    {
      SlotsApart(chunk, size, k, i);
    }
    assert Slots(chunk, size, i + 1) == Slots(chunk, size, i) + [Slot(chunk, size, i)];
  }

  lemma ThreadedNone(memory: map<nat, nat>, chunk: nat, size: nat)
    ensures Threaded(memory, memory, chunk, size, 0)
  {
  }

  lemma ThreadedStep(before: map<nat, nat>, after: map<nat, nat>, chunk: nat, size: nat, i: nat)
    requires 0 < size && Slot(chunk, size, i) !in before && Threaded(before, after, chunk, size, i)
    ensures Threaded(before, after[Slot(chunk, size, i) := Slot(chunk, size, i + 1)], chunk, size, i + 1)
  {
    hide Slot, Slots;
    SlotsGrow(chunk, size, i);
  }

  /** Null in the last object ends the thread. */
  lemma ThreadedLast(before: map<nat, nat>, after: map<nat, nat>, chunk: nat, size: nat, last: nat)
    requires 0 < size && Slot(chunk, size, last) !in before && Threaded(before, after, chunk, size, last)
    ensures var (memory, nodes) := (after[Slot(chunk, size, last) := 0], Slots(chunk, size, last + 1));
      && Linked(memory, chunk, nodes)
      && (forall a :: a in memory <==> a in before || a in nodes)
      && (forall a :: a in before ==> memory[a] == before[a])
  {
    hide Slot, Slots, Linked;
    SlotsGrow(chunk, size, last);
    ThreadedLinked(after, chunk, size, last);
  }

  lemma ThreadedLinked(after: map<nat, nat>, chunk: nat, size: nat, last: nat)
    requires 0 < size && Chained(after, chunk, size, last)
    ensures Linked(after[Slot(chunk, size, last) := 0], chunk, Slots(chunk, size, last + 1))
  {
    assert Slot(chunk, size, 0) == chunk;
    SlotsGrow(chunk, size, last);
    SlotsAre(chunk, size, last + 1);
    hide Slot, Slots;
    var (memory, nodes) := (after[Slot(chunk, size, last) := 0], Slots(chunk, size, last + 1));
    forall i: nat | i < |nodes|
      ensures nodes[i] in memory && memory[nodes[i]] == NextOf(nodes, i)
    {
      assert nodes[i] == Slot(chunk, size, i);
      if i < last {
        assert after[nodes[i]] == Slot(chunk, size, i + 1) == nodes[i + 1];
      }
    }
  }

  /** Room for every object of a new chunk. */
  ghost predicate RoomForChunk(objects: set<nat>, chunk: nat, size: nat, count: nat) {
    forall k: nat :: k < count ==> Room(Blocks(objects, size), Slot(chunk, size, k), size)
  }

  lemma AllApart(objects: set<nat>, chunk: nat, size: nat, count: nat)
    requires 0 < size && NoOverlap(Blocks(objects, size)) && RoomForChunk(objects, chunk, size, count)
    ensures var slots := Slots(chunk, size, count);
      && (forall i, j :: 0 <= i < j < |slots| ==> slots[i] != slots[j])
      && NoOverlap(Blocks(objects + (set a | a in slots), size))
  {
    var slots := Slots(chunk, size, count);
    forall i: nat, j: nat | i < j < count
      ensures slots[i] + size <= slots[j]
    {
      SlotsApart(chunk, size, i, j);
    }
    forall a, k: nat | a in objects && k < count
      ensures Apart(a, size, slots[k], size)
    {
      assert Room(Blocks(objects, size), Slot(chunk, size, k), size) && a in Blocks(objects, size);
    }
    forall a, b | a in objects && b in objects && a != b
      ensures Apart(a, size, b, size)
    {
      assert a in Blocks(objects, size) && b in Blocks(objects, size);
    }
    hide Slots, Slot, Room, RoomForChunk, Blocks;
    SlotsAre(chunk, size, count);
    AllPairs(objects, slots, size);
  }

  lemma AllPairs(objects: set<nat>, slots: seq<nat>, size: nat)
    requires forall a, b :: a in objects && b in objects && a != b ==> Apart(a, size, b, size)
    requires forall a, k: nat :: a in objects && k < |slots| ==> Apart(a, size, slots[k], size)
    requires forall i, j :: 0 <= i < j < |slots| ==> slots[i] + size <= slots[j]
    ensures NoOverlap(Blocks(objects + (set a | a in slots), size))
  {
  }

  /**
   * The shape of a pool's memory: the free list is threaded, visits no object twice, shares none with the
   * objects in use, and the two make up all objects, none of which overlap.
   */
  ghost predicate Shape(memory: map<nat, nat>, head: nat, free: seq<nat>, inUse: set<nat>, size: nat) {
    && Linked(memory, head, free)
    && (forall i, j :: 0 <= i < j < |free| ==> free[i] != free[j])
    && (forall a :: a in memory <==> a in free || a in inUse)
    && (forall a :: a in inUse ==> a !in free)
    && 0 !in memory
    && NoOverlap(Blocks(memory.Keys, size))
  }

  lemma FreshSlots(memory: map<nat, nat>, chunk: nat, size: nat, count: nat)
    requires 0 < size && RoomForChunk(memory.Keys, chunk, size, count)
    ensures forall k: nat :: k < count ==> Slot(chunk, size, k) !in memory
  {
    forall k: nat | k < count
      ensures Slot(chunk, size, k) !in memory
    {
      var slot := Slot(chunk, size, k);
      assert slot in Blocks(memory.Keys, size) ==> Apart(slot, size, slot, size);
    }
  }

  lemma HeadShape(memory: map<nat, nat>, head: nat, free: seq<nat>, inUse: set<nat>, size: nat)
    requires Shape(memory, head, free, inUse, size)
    ensures head == 0 <==> free == []
    ensures free != [] ==> head == free[0]
    ensures forall a :: a in inUse ==> a in memory
  {
  }

  lemma SlotsAre(chunk: nat, size: nat, count: nat)
    ensures |Slots(chunk, size, count)| == count
    ensures forall k: nat :: k < count ==> Slots(chunk, size, count)[k] == Slot(chunk, size, k)
    ensures forall k: nat :: k < count ==> chunk <= Slot(chunk, size, k) && Slot(chunk, size, k) in Slots(chunk, size, count)
  {
    var slots := Slots(chunk, size, count);
    forall k: nat | k < count
      ensures chunk <= Slot(chunk, size, k) && Slot(chunk, size, k) in slots
    {
      assert slots[k] == Slot(chunk, size, k);
      if k > 0 {
        SlotsApart(chunk, size, 0, k);
      }
    }
  }

  lemma ChunkShape(before: map<nat, nat>, after: map<nat, nat>, inUse: set<nat>, chunk: nat, size: nat, count: nat)
    requires 0 < size && 0 < count && RoomForChunk(before.Keys, chunk, size, count)
    requires Shape(before, 0, [], inUse, size) && Threaded(before, after, chunk, size, count - 1)
    ensures Shape(after[Slot(chunk, size, count - 1) := 0], chunk, Slots(chunk, size, count), inUse, size)
    ensures forall a :: a in inUse ==> a in after && a in before && after[Slot(chunk, size, count - 1) := 0][a] == before[a]
  {
    hide NoOverlap, Slot, Slots, Threaded, Linked, Apart;
    FreshSlots(before, chunk, size, count);
    ThreadedLast(before, after, chunk, size, count - 1);
    AllApart(before.Keys, chunk, size, count);
    var slots := Slots(chunk, size, count);
    assert after[Slot(chunk, size, count - 1) := 0].Keys == before.Keys + (set a | a in slots);
    SlotsAre(chunk, size, count);
  }

  lemma PopLinked(memory: map<nat, nat>, free: seq<nat>)
    requires free != [] && Linked(memory, free[0], free)
    ensures free[0] in memory && Linked(memory, memory[free[0]], free[1..])
  {
    var rest := free[1..];
    forall i | 0 <= i < |rest|
      ensures rest[i] in memory && memory[rest[i]] == NextOf(rest, i)
    {
      assert rest[i] == free[i + 1] && NextOf(rest, i) == NextOf(free, i + 1);
    }
    assert memory[free[0]] == NextOf(free, 0);
  }

  lemma PopShape(memory: map<nat, nat>, free: seq<nat>, inUse: set<nat>, size: nat)
    requires free != [] && Shape(memory, free[0], free, inUse, size)
    ensures free[0] in memory && free[0] !in inUse
    ensures Shape(memory, memory[free[0]], free[1..], inUse + {free[0]}, size)
  {
    hide NoOverlap, Linked;
    PopLinked(memory, free);
    assert forall i, j :: 0 <= i < j < |free[1..]| ==> free[1..][i] != free[1..][j];
    assert free == [free[0]] + free[1..];
  }

  lemma PushShape(memory: map<nat, nat>, head: nat, free: seq<nat>, inUse: set<nat>, size: nat, obj: nat)
    requires obj in inUse && Shape(memory, head, free, inUse, size)
    ensures Shape(memory[obj := head], obj, [obj] + free, inUse - {obj}, size)
  {
    hide NoOverlap, Linked;
    assert memory[obj := head].Keys == memory.Keys;
    PushLinked(memory, head, free, obj);
    var more := [obj] + free;
    forall i, j | 0 <= i < j < |more|
      ensures more[i] != more[j]
    {
      assert more[j] == free[j - 1] && (i > 0 ==> more[i] == free[i - 1]);
    }
    assert forall a :: a in more <==> a == obj || a in free;
  }

  lemma PushLinked(memory: map<nat, nat>, head: nat, free: seq<nat>, obj: nat)
    requires Linked(memory, head, free) && obj !in free
    ensures Linked(memory[obj := head], obj, [obj] + free)
  {
    var (now, more) := (memory[obj := head], [obj] + free);
    forall i | 0 <= i < |more|
      ensures more[i] in now && now[more[i]] == NextOf(more, i)
    {
      if i > 0 {
        assert more[i] == free[i - 1] && NextOf(more, i) == NextOf(free, i - 1);
      }
    }
  }

  /** Following next pointers from `head` comes to null some time. */
  ghost predicate Ends(memory: map<nat, nat>, head: nat) {
    exists n: nat :: Follow(memory, head, n) == 0
  }

  /** The nodes point to one another in a circle. */
  predicate Circle(memory: map<nat, nat>, nodes: seq<nat>) {
    forall j :: 0 <= j < |nodes| ==> nodes[j] in memory && memory[nodes[j]] == Around(nodes, j)
  }

  function Around(nodes: seq<nat>, j: nat): nat
    requires j < |nodes|
  {
    if j + 1 < |nodes| then nodes[j + 1] else nodes[0]
  }

  lemma {:induction false} CircleStays(memory: map<nat, nat>, nodes: seq<nat>, start: nat, hops: nat)
    requires Circle(memory, nodes) && start in nodes && 0 !in nodes
    ensures Follow(memory, start, hops) in nodes
  {
    if hops > 0 {
      CircleStays(memory, nodes, start, hops - 1);
      var at := Follow(memory, start, hops - 1);
      var j :| 0 <= j < |nodes| && nodes[j] == at;
      assert at != 0 && Follow(memory, start, hops) == memory[at];
      assert memory[nodes[j]] == Around(nodes, j) && Around(nodes, j) in nodes;
    }
  }

  lemma ClosedCircle(memory: map<nat, nat>, free: seq<nat>, i: nat)
    requires i < |free| && Linked(memory, free[0], free)
    requires forall j, k :: 0 <= j < k < |free| ==> free[j] != free[k]
    ensures Circle(memory[free[i] := free[0]], free[..i + 1])
  {
    var (now, nodes) := (memory[free[i] := free[0]], free[..i + 1]);
    forall j | 0 <= j < |nodes|
      ensures nodes[j] in now && now[nodes[j]] == Around(nodes, j)
    {
      assert nodes[j] == free[j] && nodes[0] == free[0];
      if j < i {
        NextInCircle(memory, free, i, j);
      }
    }
  }

  lemma NextInCircle(memory: map<nat, nat>, free: seq<nat>, i: nat, j: nat)
    requires j < i < |free| && Linked(memory, free[0], free)
    requires forall j, k :: 0 <= j < k < |free| ==> free[j] != free[k]
    ensures free[j] in memory && free[j] != free[i] && memory[free[j]] == free[j + 1]
  {
    assert memory[free[j]] == NextOf(free, j);
  }

  /** Giving back an object that is already free closes a circle: the free list never ends. */
  lemma DoubleDelete(memory: map<nat, nat>, head: nat, free: seq<nat>, inUse: set<nat>, size: nat, obj: nat)
    requires Shape(memory, head, free, inUse, size) && obj in memory && obj !in inUse
    ensures !Ends(memory[obj := head], obj)
  {
    hide NoOverlap;
    var i :| 0 <= i < |free| && free[i] == obj;
    ClosedCircle(memory, free, i);
    var (now, nodes) := (memory[obj := head], free[..i + 1]);
    assert nodes[i] == obj && 0 !in nodes;
    if Ends(now, obj) {
      var n: nat :| Follow(now, obj, n) == 0;
      CircleStays(now, nodes, obj, n);
    }
  }

  lemma WriteShape(memory: map<nat, nat>, head: nat, free: seq<nat>, inUse: set<nat>, size: nat, obj: nat, word: nat)
    requires obj in inUse && Shape(memory, head, free, inUse, size)
    ensures Shape(memory[obj := word], head, free, inUse, size)
  {
    hide NoOverlap;
    var now := memory[obj := word];
    assert now.Keys == memory.Keys;
    forall i | 0 <= i < |free|
      ensures free[i] in now && now[free[i]] == NextOf(free, i)
    {
      assert free[i] != obj;
    }
  }

  lemma ShapeEnds(memory: map<nat, nat>, head: nat, free: seq<nat>, inUse: set<nat>, size: nat)
    requires Shape(memory, head, free, inUse, size)
    ensures Ends(memory, head)
  {
    ThreadEnds(memory, head, free, |free|);
  }

  class ObjectPool {
    const objectSize: nat
    const allocCount: nat
    var memory: map<nat, nat>   // the first word of every object the pool has ever made room for
    var freeList: nat           // address of the first free object, 0 when there is none
    var totalAllocCount: int
    var currentUseCount: int
    ghost var free: seq<nat>
    ghost var inUse: set<nat>

    ghost predicate Valid()
      reads this
    {
      && POINTER_SIZE <= objectSize && 0 < allocCount
      && Shape(memory, freeList, free, inUse, objectSize)
      && currentUseCount == |inUse| && totalAllocCount == |free| + |inUse|
    }

    constructor (objectSize: nat, allocCount: nat)
      requires POINTER_SIZE <= objectSize && 0 < allocCount
      ensures Valid() && free == [] && inUse == {}
      ensures this.objectSize == objectSize && this.allocCount == allocCount
    {
      this.objectSize, this.allocCount := objectSize, allocCount;
      memory, freeList, totalAllocCount, currentUseCount := map[], 0, 0, 0;
      free, inUse := [], {};
    }

    /** The loop that threads next pointers through a new chunk when the free list has run out. */
    method ThreadChunk(chunk: nat)
      requires Valid() && freeList == 0 && RoomForChunk(memory.Keys, chunk, objectSize, allocCount)
      modifies this
      ensures Valid()
      ensures free == Slots(chunk, objectSize, allocCount) && inUse == old(inUse)
      ensures currentUseCount == old(currentUseCount) && totalAllocCount == old(totalAllocCount) + allocCount
      ensures forall a :: a in inUse ==> memory[a] == old(memory[a])
    {
      hide Shape, Threaded, RoomForChunk;
      HeadShape(memory, freeList, free, inUse, objectSize);
      FreshSlots(memory, chunk, objectSize, allocCount);
      ThreadedNone(memory, chunk, objectSize);
      freeList := chunk;
      var next, current := chunk, chunk;
      for i := 0 to allocCount - 1
        invariant current == next == Slot(chunk, objectSize, i)
        invariant Threaded(old(memory), memory, chunk, objectSize, i)
        invariant freeList == chunk && free == [] && inUse == old(inUse)
        invariant currentUseCount == old(currentUseCount) && totalAllocCount == old(totalAllocCount)
      {
        next := next + objectSize;
        ThreadedStep(old(memory), memory, chunk, objectSize, i);
        memory := memory[current := next];
        current := next;
      }
      ChunkShape(old(memory), memory, inUse, chunk, objectSize, allocCount);
      memory := memory[current := 0];
      totalAllocCount := totalAllocCount + allocCount;
      free := Slots(chunk, objectSize, allocCount);
    }

    /** A free object, threading a new chunk first if there is none; the assertion on the counts always holds. */
    method New(chunk: nat) returns (obj: nat)
      requires Valid() && (freeList == 0 ==> RoomForChunk(memory.Keys, chunk, objectSize, allocCount))
      modifies this
      ensures Valid() && obj !in old(inUse) && inUse == old(inUse) + {obj}
      ensures [obj] + free == if old(freeList) == 0 then Slots(chunk, objectSize, allocCount) else old(free)
      ensures totalAllocCount == old(totalAllocCount) + if old(freeList) == 0 then allocCount else 0
      ensures currentUseCount == old(currentUseCount) + 1
      ensures forall a :: a in old(inUse) ==> memory[a] == old(memory[a])
    {
      hide Shape, RoomForChunk;
      if freeList == 0 {
        ThreadChunk(chunk);
      }
      HeadShape(memory, freeList, free, inUse, objectSize);
      assert currentUseCount < totalAllocCount;
      PopShape(memory, free, inUse, objectSize);
      obj := freeList;
      freeList := memory[obj];
      currentUseCount := currentUseCount + 1;
      free, inUse := free[1..], inUse + {obj};
    }

    /**
     * Puts an object at the head of the free list. The assertion looks at the use count alone, so an object
     * that is already free passes while others are in use: the list ends, exactly if the object was in use.
     */
    method Delete(obj: nat) returns (crashed: bool)
      requires Valid() && obj in memory
      modifies this
      ensures crashed <==> old(currentUseCount) == 0
      ensures crashed ==> Valid() && memory == old(memory) && free == old(free) && inUse == old(inUse)
      ensures !crashed ==> memory == old(memory)[obj := old(freeList)] && freeList == obj
      ensures !crashed ==> totalAllocCount == old(totalAllocCount) && currentUseCount == old(currentUseCount) - 1
      ensures !crashed && obj in old(inUse) ==> Valid() && free == [obj] + old(free) && inUse == old(inUse) - {obj}
      ensures !crashed ==> (obj in old(inUse) <==> Ends(memory, freeList))
    {
      hide Shape, Ends;
      if !(currentUseCount > 0) {
        return true;
      }
      currentUseCount := currentUseCount - 1;
      ghost var (before, head) := (memory, freeList);
      memory := memory[obj := freeList];
      freeList := obj;
      if obj in inUse {
        PushShape(before, head, free, inUse, objectSize, obj);
        free, inUse := [obj] + free, inUse - {obj};
        ShapeEnds(memory, freeList, free, inUse, objectSize);
      } else {
        DoubleDelete(before, head, free, inUse, objectSize, obj);
      }
      return false;
    }

    /** What the owner of an object writes into it leaves the free list whole. */
    method WriteObject(obj: nat, word: nat)
      requires Valid() && obj in inUse
      modifies `memory
      ensures Valid() && memory == old(memory)[obj := word]
    {
      hide Shape;
      WriteShape(memory, freeList, free, inUse, objectSize, obj, word);
      memory := memory[obj := word];
    }

    /** The next object handed out is the last one given back, and so on: the free list is a stack that ends with null. */
    lemma FreeListEnds(hops: nat)
      requires Valid()
      ensures Follow(memory, freeList, hops) == if hops < totalAllocCount - currentUseCount then free[hops] else 0
      ensures hops < totalAllocCount - currentUseCount ==> Follow(memory, freeList, hops) !in inUse
    {
      ThreadEnds(memory, freeList, free, hops);
    }
  }
}
