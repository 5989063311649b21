/**
 * A size-class memory pool: a table maps every total size to the pool of the smallest class that holds it,
 * each pool keeps returned blocks on a stack, and every block starts with a header recording its total size.
 */
module MemoryPooling {
  import opened Extents

  const HEADER_SIZE: nat := 16
  const MAX_ALLOC_SIZE: nat := 4096

  /** Classes go up by 32 to 1024, by 128 to 2048, by 256 to 4096. */
  predicate IsClass(i: nat) {
    || (32 <= i < 1024 && i % 32 == 0)
    || (1024 <= i < 2048 && i % 128 == 0)
    || (2048 <= i <= MAX_ALLOC_SIZE && i % 256 == 0)
  }

  /** The smallest class that holds `j` bytes. */
  function ClassOf(j: nat): (c: nat)
    requires 0 < j <= MAX_ALLOC_SIZE
    ensures IsClass(c) && j <= c && forall i: nat :: j <= i < c ==> !IsClass(i)
    decreases MAX_ALLOC_SIZE - j
  {
    if IsClass(j) then j else ClassOf(j + 1)
  }

  predicate Pooled(total: nat) {
    0 < total <= MAX_ALLOC_SIZE
  }

  /** The size of the block behind an allocation of `total` bytes, header included. */
  function BlockSize(total: nat): (size: nat)
    ensures total <= size
  {
    if Pooled(total) then ClassOf(total) else total
  }

  datatype Header = Header(allocSize: int, extraInfo: int)

  /**
   * `extents`: the blocks obtained from the system and their sizes. `live`: the blocks handed out, with the
   * total size asked for. `free` and `counts`: the stack and the allocation count of every class.
   */
  datatype Store = Store(
    headers: map<nat, Header>, extents: map<nat, nat>, live: map<nat, nat>,
    free: map<nat, seq<nat>>, counts: map<nat, int>)

  /** The live blocks of a class. */
  ghost function InClass(live: map<nat, nat>, c: nat): set<nat> {
    set h | h in live && BlockSize(live[h]) == c
  }

  predicate LiveBlock(s: Store, h: nat)
    requires h in s.live
  {
    && h in s.headers && h in s.extents
    && HEADER_SIZE <= s.live[h] && s.headers[h] == Header(s.live[h], -1) && s.extents[h] == BlockSize(s.live[h])
  }

  /** A stack of blocks of class `c`, none twice, all marked as freed. */
  predicate FreeStack(s: Store, c: nat, stack: seq<nat>) {
    && (forall i :: 0 <= i < |stack| ==>
      stack[i] in s.headers && stack[i] in s.extents && s.headers[stack[i]].allocSize == 0 && s.extents[stack[i]] == c)
    && (forall i, j :: 0 <= i < j < |stack| ==> stack[i] != stack[j])
  }

  /** No block is lost: what the system gave is in use or on the stack of its class. */
  ghost predicate Kept(s: Store, h: nat)
    requires h in s.extents
  {
    0 < s.extents[h] && (h in s.live || (s.extents[h] in s.free && h in s.free[s.extents[h]]))
  }

  ghost predicate Tables(s: Store) {
    && (forall c :: c in s.free <==> IsClass(c)) && (forall c :: c in s.counts <==> IsClass(c))
    && (forall h :: h in s.headers <==> h in s.extents)
    && NoOverlap(s.extents)
  }

  ghost predicate AllLive(s: Store) {
    forall h :: h in s.live ==> LiveBlock(s, h)
  }

  ghost predicate AllStacks(s: Store) {
    forall c :: c in s.free ==> FreeStack(s, c, s.free[c])
  }

  ghost predicate AllKept(s: Store) {
    forall h :: h in s.extents ==> Kept(s, h)
  }

  ghost predicate AllCounted(s: Store) {
    forall c :: c in s.counts ==> s.counts[c] == |InClass(s.live, c)|
  }

  ghost predicate Consistent(s: Store) {
    Tables(s) && AllLive(s) && AllStacks(s) && AllKept(s) && AllCounted(s)
  }

  /** The header Attach writes, and the count of the pool. */
  function Attach(s: Store, h: nat, total: nat): Store {
    s.(headers := s.headers[h := Header(total, -1)], live := s.live[h := total],
      counts := if Pooled(total) && ClassOf(total) in s.counts then s.counts[ClassOf(total) := s.counts[ClassOf(total)] + 1] else s.counts)
  }

  predicate Reuses(s: Store, total: nat) {
    Pooled(total) && ClassOf(total) in s.free && s.free[ClassOf(total)] != []
  }

  /** The block an allocation takes: the top of the stack of its class, or the one the system would give. */
  function Taken(s: Store, total: nat, block: nat): nat {
    if Reuses(s, total) then s.free[ClassOf(total)][0] else block
  }

  function Allocated(s: Store, total: nat, block: nat): Store {
    if Reuses(s, total) then
      var c := ClassOf(total);
      Attach(s.(free := s.free[c := s.free[c][1..]]), s.free[c][0], total)
    else
      Attach(s.(extents := s.extents[block := BlockSize(total)]), block, total)
  }

  function Freed(s: Store, h: nat, extraInfo: int): Store
    requires h in s.live
  {
    var total := s.live[h];
    if Pooled(total) && ClassOf(total) in s.free && ClassOf(total) in s.counts then
      var c := ClassOf(total);
      s.(headers := s.headers[h := Header(0, extraInfo)], live := s.live - {h},
        free := s.free[c := [h] + s.free[c]], counts := s.counts[c := s.counts[c] - 1])
    else
      s.(headers := s.headers - {h}, extents := s.extents - {h}, live := s.live - {h})
  }

  lemma AllocatedHeader(s: Store, total: nat, block: nat)
    ensures Allocated(s, total, block).headers == s.headers[Taken(s, total, block) := Header(total, -1)]
    ensures Allocated(s, total, block).live == s.live[Taken(s, total, block) := total]
  {
  }

  lemma ClassAdded(live: map<nat, nat>, h: nat, total: nat, c: nat)
    requires h !in live
    ensures |InClass(live[h := total], c)| == |InClass(live, c)| + if BlockSize(total) == c then 1 else 0
  {
    assert InClass(live[h := total], c) == InClass(live, c) + if BlockSize(total) == c then {h} else {};
  }

  lemma ClassRemoved(live: map<nat, nat>, h: nat, c: nat)
    requires h in live
    ensures |InClass(live - {h}, c)| == |InClass(live, c)| - if BlockSize(live[h]) == c then 1 else 0
  {
    assert InClass(live, c) == InClass(live - {h}, c) + if BlockSize(live[h]) == c then {h} else {};
  }

  lemma BlockClass(total: nat)
    requires 0 < total
    ensures Pooled(total) ==> BlockSize(total) == ClassOf(total) <= MAX_ALLOC_SIZE && IsClass(BlockSize(total))
    ensures !Pooled(total) ==> BlockSize(total) == total > MAX_ALLOC_SIZE && !IsClass(BlockSize(total))
  {
  }

  lemma AttachCounted(s: Store, h: nat, total: nat)
    requires AllCounted(s) && (forall c :: c in s.counts <==> IsClass(c)) && h !in s.live && 0 < total
    ensures AllCounted(Attach(s, h, total))
  {
    hide ClassOf, BlockSize, InClass, IsClass;
    BlockClass(total);
    forall d | d in s.counts
      ensures Attach(s, h, total).counts[d] == |InClass(s.live[h := total], d)|
    {
      ClassAdded(s.live, h, total, d);
    }
  }

  lemma FreedCounted(s: Store, h: nat, extraInfo: int)
    requires AllCounted(s) && Tables(s) && h in s.live && 0 < s.live[h]
    ensures AllCounted(Freed(s, h, extraInfo))
  {
    hide ClassOf, BlockSize, InClass, IsClass, NoOverlap;
    BlockClass(s.live[h]);
    forall d | d in s.counts
      ensures Freed(s, h, extraInfo).counts[d] == |InClass(s.live - {h}, d)|
    {
      ClassRemoved(s.live, h, d);
    }
  }

  lemma StackedIsFreed(s: Store, c: nat)
    requires c in s.free && s.free[c] != [] && AllStacks(s) && AllLive(s)
    ensures var h := s.free[c][0]; h in s.extents && s.extents[h] == c && h !in s.live && FreeStack(s, c, s.free[c])
  {
    hide BlockSize;
    var h := s.free[c][0];
    assert FreeStack(s, c, s.free[c]);
    assert h in s.live ==> LiveBlock(s, h);
  }

  lemma RoomIsNew(s: Store, block: nat, size: nat)
    requires Room(s.extents, block, size) && AllKept(s) && AllLive(s) && NoOverlap(s.extents) && 0 < size
    ensures block !in s.extents && block !in s.live && NoOverlap(s.extents[block := size])
  {
    hide BlockSize;
    assert block in s.extents ==> Kept(s, block);
    assert block in s.live ==> LiveBlock(s, block);
  }

  /** The facts about the block about to be taken. */
  lemma TakenIsFree(s: Store, total: nat, block: nat)
    requires Consistent(s) && HEADER_SIZE <= total
    requires Reuses(s, total) || Room(s.extents, block, BlockSize(total))
    ensures Taken(s, total, block) !in s.live
    ensures Reuses(s, total) ==> var h := Taken(s, total, block);
      && h in s.extents && s.extents[h] == BlockSize(total) == ClassOf(total) && FreeStack(s, ClassOf(total), s.free[ClassOf(total)])
    ensures !Reuses(s, total) ==> block !in s.extents && NoOverlap(s.extents[block := BlockSize(total)])
  {
    hide ClassOf, BlockSize, IsClass, AllCounted, AllStacks, AllKept, AllLive, NoOverlap, Room;
    BlockClass(total);
    if Reuses(s, total) {
      StackedIsFreed(s, ClassOf(total));
    } else {
      RoomIsNew(s, block, BlockSize(total));
    }
  }

  lemma AllocatedStacks(s: Store, total: nat, block: nat)
    requires Consistent(s) && HEADER_SIZE <= total
    requires Reuses(s, total) || Room(s.extents, block, BlockSize(total))
    ensures AllStacks(Allocated(s, total, block))
  {
    hide ClassOf, BlockSize, IsClass, AllCounted, NoOverlap, AllLive, AllKept, Room;
    TakenIsFree(s, total, block);
    var s' := Allocated(s, total, block);
    forall d | d in s'.free
      ensures FreeStack(s', d, s'.free[d])
    {
      assert FreeStack(s, d, s.free[d]);
    }
  }

  lemma AllocatedKept(s: Store, total: nat, block: nat)
    requires Consistent(s) && HEADER_SIZE <= total
    requires Reuses(s, total) || Room(s.extents, block, BlockSize(total))
    ensures AllKept(Allocated(s, total, block))
  {
    hide ClassOf, IsClass, AllCounted, NoOverlap, AllStacks, AllLive, Room;
    TakenIsFree(s, total, block);
    var s' := Allocated(s, total, block);
    forall k | k in s'.extents
      ensures Kept(s', k)
    {
      assert k in s.extents ==> Kept(s, k);
    }
  }

  lemma AllocatedLive(s: Store, total: nat, block: nat)
    requires Consistent(s) && HEADER_SIZE <= total
    requires Reuses(s, total) || Room(s.extents, block, BlockSize(total))
    ensures AllLive(Allocated(s, total, block))
  {
    hide ClassOf, BlockSize, IsClass, AllCounted, NoOverlap, AllStacks, AllKept, Room;
    TakenIsFree(s, total, block);
    var s' := Allocated(s, total, block);
    forall k | k in s'.live
      ensures LiveBlock(s', k)
    {
      assert k in s.live ==> LiveBlock(s, k);
    }
  }

  /** Whatever is allocated, the store stays consistent, and the block taken was not in use. */
  lemma AllocatedKeeps(s: Store, total: nat, block: nat)
    requires Consistent(s) && HEADER_SIZE <= total
    requires Reuses(s, total) || Room(s.extents, block, BlockSize(total))
    ensures Consistent(Allocated(s, total, block)) && Taken(s, total, block) !in s.live
  {
    hide ClassOf, BlockSize, IsClass, AllCounted, NoOverlap, AllLive, AllStacks, AllKept, Room;
    TakenIsFree(s, total, block);
    AllocatedStacks(s, total, block);
    AllocatedKept(s, total, block);
    AllocatedLive(s, total, block);
    var s1 := (if Reuses(s, total) then s.(free := s.free[ClassOf(total) := s.free[ClassOf(total)][1..]])
               else s.(extents := s.extents[block := BlockSize(total)]));
    SameCounts(s, s1);
    AttachCounted(s1, Taken(s, total, block), total);
  }

  lemma SameCounts(s: Store, s1: Store)
    requires AllCounted(s) && s1.live == s.live && s1.counts == s.counts
    ensures AllCounted(s1)
  {
  }

  lemma FreedStacks(s: Store, h: nat, extraInfo: int)
    requires Consistent(s) && h in s.live
    ensures AllStacks(Freed(s, h, extraInfo))
  {
    hide ClassOf, IsClass, AllCounted, NoOverlap, AllKept;
    assert LiveBlock(s, h);
    var s' := Freed(s, h, extraInfo);
    forall d | d in s'.free
      ensures FreeStack(s', d, s'.free[d])
    {
      assert FreeStack(s, d, s.free[d]);
      var stack := s.free[d];
      assert forall i :: 0 <= i < |stack| ==> stack[i] != h;
    }
  }

  lemma FreedKept(s: Store, h: nat, extraInfo: int)
    requires Consistent(s) && h in s.live
    ensures AllKept(Freed(s, h, extraInfo))
  {
    hide ClassOf, AllCounted, AllStacks, IsClass, NoOverlap;
    assert LiveBlock(s, h);
    BlockClass(s.live[h]);
    var s' := Freed(s, h, extraInfo);
    forall k | k in s'.extents
      ensures Kept(s', k)
    {
      assert Kept(s, k);
    }
  }

  lemma FreedLive(s: Store, h: nat, extraInfo: int)
    requires Consistent(s) && h in s.live
    ensures AllLive(Freed(s, h, extraInfo))
  {
    hide ClassOf, BlockSize, AllCounted, AllStacks, AllKept, IsClass, NoOverlap;
    var s' := Freed(s, h, extraInfo);
    forall k | k in s'.live
      ensures LiveBlock(s', k)
    {
      assert LiveBlock(s, k);
    }
  }

  lemma FreedTables(s: Store, h: nat, extraInfo: int)
    requires Consistent(s) && h in s.live
    ensures Tables(Freed(s, h, extraInfo))
  {
    hide ClassOf, BlockSize, AllCounted, AllStacks, AllKept, IsClass;
    assert LiveBlock(s, h);
  }

  lemma FreedKeeps(s: Store, h: nat, extraInfo: int)
    requires Consistent(s) && h in s.live
    ensures Consistent(Freed(s, h, extraInfo))
  {
    assert LiveBlock(s, h);
    hide *;
    FreedStacks(s, h, extraInfo);
    FreedKept(s, h, extraInfo);
    FreedLive(s, h, extraInfo);
    FreedTables(s, h, extraInfo);
    FreedCounted(s, h, extraInfo);
  }

  // Runs of allocations and frees

  datatype Op = Allocate(size: nat, block: nat) | Deallocate(header: nat, extraInfo: int)

  function Empty(): Store {
    Store(map[], map[], map[],
      map c: nat | c <= MAX_ALLOC_SIZE && IsClass(c) :: [], map c: nat | c <= MAX_ALLOC_SIZE && IsClass(c) :: 0)
  }

  /** A free of a block that is not live ends the program, and the system gives only blocks there is room for; neither is a step of a run. */
  ghost function Do(s: Store, op: Op): Store {
    match op
    case Allocate(size, block) =>
      var total := size + HEADER_SIZE;
      if Reuses(s, total) || Room(s.extents, block, BlockSize(total)) then Allocated(s, total, block) else s
    case Deallocate(h, extraInfo) => if h in s.live then Freed(s, h, extraInfo) else s
  }

  ghost function Exec(ops: seq<Op>): Store {
    if ops == [] then Empty() else Do(Exec(ops[..|ops| - 1]), ops[|ops| - 1])
  }

  lemma {:induction false} AlwaysConsistent(ops: seq<Op>)
    ensures Consistent(Exec(ops))
  {
    hide Tables, AllLive, AllStacks, AllKept, AllCounted, Allocated, Freed, Taken, Room, Reuses, BlockSize, Empty;
    if ops == [] {
      EmptyConsistent();
    } else {
      var s := Exec(ops[..|ops| - 1]);
      AlwaysConsistent(ops[..|ops| - 1]);
      match ops[|ops| - 1]
      case Allocate(size, block) =>
        if Reuses(s, size + HEADER_SIZE) || Room(s.extents, block, BlockSize(size + HEADER_SIZE)) {
          AllocatedKeeps(s, size + HEADER_SIZE, block);
        }
      case Deallocate(h, extraInfo) =>
        if h in s.live {
          FreedKeeps(s, h, extraInfo);
        }
    }
  }

  lemma EmptyConsistent()
    ensures Consistent(Empty())
  {
    assert forall c :: InClass(map[], c) == {};
  }

  /** Every live block is big enough, of the smallest class that fits if pooled, and exactly as asked for otherwise. */
  lemma SmallestFit(ops: seq<Op>, h: nat)
    requires h in Exec(ops).live
    ensures var s := Exec(ops);
      && h in s.extents && h in s.headers && s.headers[h] == Header(s.live[h], -1) && s.live[h] <= s.extents[h]
      && (if s.live[h] <= MAX_ALLOC_SIZE
          then IsClass(s.extents[h]) && forall c: nat :: IsClass(c) && s.live[h] <= c ==> s.extents[h] <= c
          else s.extents[h] == s.live[h])
  {
    hide Exec, Tables, AllStacks, AllKept, AllCounted;
    AlwaysConsistent(ops);
    assert LiveBlock(Exec(ops), h);
  }

  /** What an owner may write (its own bytes, behind the header) lies in no other block, in use or free, header included. */
  lemma OwnersDoNotMeet(ops: seq<Op>, h: nat, k: nat, a: nat)
    requires var s := Exec(ops); h in s.live && k in s.extents && h + HEADER_SIZE <= a < h + s.live[h]
    ensures h != k ==> !(k <= a < k + Exec(ops).extents[k])
    ensures !(k <= a < k + HEADER_SIZE)
  {
    hide Exec, AllStacks, AllCounted, ClassOf;
    AlwaysConsistent(ops);
    assert LiveBlock(Exec(ops), h) && Kept(Exec(ops), k);
    AtLeastHeader(ops, k);
  }

  lemma AtLeastHeader(ops: seq<Op>, k: nat)
    requires k in Exec(ops).extents
    ensures HEADER_SIZE <= Exec(ops).extents[k]
  {
    hide Exec, NoOverlap, AllCounted, ClassOf;
    AlwaysConsistent(ops);
    var s := Exec(ops);
    assert Kept(s, k);
    assert k in s.live ==> LiveBlock(s, k);
  }

  /** A freed block goes back on the stack of the class it was made for, and nothing else moves. */
  lemma ReturnsToItsClass(ops: seq<Op>, h: nat, extraInfo: int)
    requires h in Exec(ops).live && Exec(ops).live[h] <= MAX_ALLOC_SIZE
    ensures var (s, s') := (Exec(ops), Exec(ops + [Deallocate(h, extraInfo)]));
      && h in s.extents && s.extents[h] in s.free && s.extents[h] in s.counts
      && s'.free == s.free[s.extents[h] := [h] + s.free[s.extents[h]]]
      && s'.counts == s.counts[s.extents[h] := s.counts[s.extents[h]] - 1]
      && s'.extents == s.extents && s'.live == s.live - {h} && s'.headers == s.headers[h := Header(0, extraInfo)]
  {
    hide NoOverlap, AllStacks, AllKept, AllCounted, IsClass;
    AlwaysConsistent(ops);
    assert LiveBlock(Exec(ops), h);
    BlockClass(Exec(ops).live[h]);
    assert (ops + [Deallocate(h, extraInfo)])[..|ops|] == ops;
  }

  /** The block just freed is the next one handed out to a request of its class. */
  lemma FreedIsNext(ops: seq<Op>, h: nat, extraInfo: int, size: nat, block: nat)
    requires h in Exec(ops).live && Exec(ops).live[h] <= MAX_ALLOC_SIZE && size + HEADER_SIZE <= MAX_ALLOC_SIZE
    requires BlockSize(size + HEADER_SIZE) == BlockSize(Exec(ops).live[h])
    ensures var (s, s') := (Exec(ops), Exec(ops + [Deallocate(h, extraInfo), Allocate(size, block)]));
      && s'.live == (s.live - {h})[h := size + HEADER_SIZE] && s'.free == s.free && s'.counts == s.counts && s'.extents == s.extents
  {
    hide Consistent, Freed, Allocated, Reuses, Room, BlockSize;
    AlwaysConsistent(ops);
    var (free, allocate) := (Deallocate(h, extraInfo), Allocate(size, block));
    assert ([free, allocate])[..1] == [free];
    assert (ops + [free])[..|ops|] == ops && (ops + [free, allocate])[..|ops| + 1] == ops + [free];
    FreedThenTaken(Exec(ops), h, extraInfo, size + HEADER_SIZE, block);
  }

  lemma FreedThenTaken(s: Store, h: nat, extraInfo: int, total: nat, block: nat)
    requires Consistent(s) && h in s.live && s.live[h] <= MAX_ALLOC_SIZE && HEADER_SIZE <= total <= MAX_ALLOC_SIZE
    requires BlockSize(total) == BlockSize(s.live[h])
    ensures var (s1, s2) := (Freed(s, h, extraInfo), Allocated(Freed(s, h, extraInfo), total, block));
      && Reuses(s1, total)
      && s2.live == (s.live - {h})[h := total] && s2.free == s.free && s2.counts == s.counts && s2.extents == s.extents
  {
    hide NoOverlap, AllStacks, AllKept, AllCounted, IsClass, ClassOf, BlockSize;
    assert LiveBlock(s, h);
    BlockClass(s.live[h]);
    BlockClass(total);
    var stack := s.free[ClassOf(total)];
    assert ([h] + stack)[0] == h && ([h] + stack)[1..] == stack;
  }

  /** The blocks obtained from the system for a class. */
  ghost function MadeFor(s: Store, c: nat): set<nat> {
    set h | h in s.extents && s.extents[h] == c
  }

  /** The blocks ever made for a class are the ones in use plus the ones on its stack. */
  lemma ClassConserved(ops: seq<Op>, c: nat)
    requires IsClass(c)
    ensures var s := Exec(ops);
      && c in s.free && c in s.counts
      && |MadeFor(s, c)| == s.counts[c] + |s.free[c]|
  {
    hide Exec, NoOverlap, ClassOf, IsClass, BlockSize;
    AlwaysConsistent(ops);
    var s := Exec(ops);
    var (used, stacked) := (InClass(s.live, c), Members(s.free[c]));
    assert FreeStack(s, c, s.free[c]);
    forall h | h in used
      ensures h in MadeFor(s, c) && h !in stacked
    {
      assert LiveBlock(s, h);
    }
    forall h | h in MadeFor(s, c)
      ensures h in used + stacked
    {
      assert Kept(s, h);
      assert h in s.live ==> LiveBlock(s, h);
    }
    assert MadeFor(s, c) == used + stacked && used !! stacked;
    DistinctCount(s.free[c]);
  }

  ghost function Members(stack: seq<nat>): set<nat> {
    set h | h in stack
  }

  lemma {:induction false} DistinctCount(stack: seq<nat>)
    requires forall i, j :: 0 <= i < j < |stack| ==> stack[i] != stack[j]
    ensures |Members(stack)| == |stack|
  {
    if stack != [] {
      var (first, rest) := (stack[0], stack[1..]);
      DistinctCount(rest);
      assert stack == [first] + rest && first !in rest;
      assert Members(stack) == Members(rest) + {first};
    }
  }

  // The pools as objects

  const MEMORY_ALLOCATION_ALIGNMENT: nat := 8

  /** The block headers in memory, and what the system's allocator knows. */
  class Heap {
    var headers: map<nat, Header>
    ghost var extents: map<nat, nat>

    constructor ()
      ensures headers == map[] && extents == map[]
    {
      headers, extents := map[], map[];
    }

    method AlignedMalloc(size: nat, block: nat) returns (header: nat)
      requires Room(extents, block, size)
      modifies `extents
      ensures header == block && extents == old(extents)[block := size]
    {
      header, extents := block, extents[block := size];
    }

    method AlignedFree(header: nat)
      modifies this
      ensures headers == old(headers) - {header} && extents == old(extents) - {header}
    {
      headers, extents := headers - {header}, extents - {header};
    }
  }

  /** The pool of one class; the top of the free list comes first. */
  class SmallSizeMemoryPool {
    const allocSize: nat
    var freeList: seq<nat>
    var allocCount: int

    constructor (allocSize: nat)
      requires allocSize > MEMORY_ALLOCATION_ALIGNMENT
      ensures this.allocSize == allocSize && freeList == [] && allocCount == 0
    {
      this.allocSize, freeList, allocCount := allocSize, [], 0;
    }

    /** The last block pushed, or a new one from the system; a block on the list is always marked as freed. */
    method Pop(heap: Heap, block: nat) returns (header: nat)
      requires freeList != [] ==> freeList[0] in heap.headers && heap.headers[freeList[0]].allocSize == 0
      requires freeList == [] ==> Room(heap.extents, block, allocSize)
      modifies this, heap`extents
      ensures allocCount == old(allocCount) + 1
      ensures old(freeList) != [] ==> [header] + freeList == old(freeList) && heap.extents == old(heap.extents)
      ensures old(freeList) == [] ==> header == block && freeList == [] && heap.extents == old(heap.extents)[block := allocSize]
    {
      if freeList == [] {
        header := heap.AlignedMalloc(allocSize, block);
      } else {
        header, freeList := freeList[0], freeList[1..];
        assert heap.headers[header].allocSize == 0;
      }
      allocCount := allocCount + 1;
    }

    method Push(header: nat)
      modifies this
      ensures freeList == [header] + old(freeList) && allocCount == old(allocCount) - 1
    {
      freeList := [header] + freeList;
      allocCount := allocCount - 1;
    }
  }

  /** The entries up to `n` lead to the pools of the classes up to `n`. */
  ghost predicate TableUpTo(entries: seq<SmallSizeMemoryPool?>, pools: map<nat, SmallSizeMemoryPool>, n: nat) {
    && |entries| == MAX_ALLOC_SIZE + 1 && n <= MAX_ALLOC_SIZE
    && (forall c: nat :: c in pools <==> IsClass(c) && c <= n)
    && (forall c: nat :: c in pools ==> pools[c].allocSize == c)
    && (forall j: nat :: 0 < j <= n ==> ClassOf(j) in pools && entries[j] == pools[ClassOf(j)])
  }

  ghost predicate AllEmpty(pools: map<nat, SmallSizeMemoryPool>)
    reads pools.Values
  {
    forall c :: c in pools ==> pools[c].freeList == [] && pools[c].allocCount == 0
  }

  /** The class before `i`, or 0 before the first. */
  function Before(i: nat): nat
    requires 32 <= i
  {
    if i <= 1024 then i - 32 else if i <= 2048 then i - 128 else i - 256
  }

  lemma NoClassInside(i: nat, k: nat)
    requires IsClass(i) && IsClass(k)
    ensures k <= Before(i) || i <= k
  {
  }

  lemma NoClassBetween(i: nat, j: nat)
    requires IsClass(i) && Before(i) < j <= i
    ensures ClassOf(j) == i
  {
    hide ClassOf;
    NoClassInside(i, ClassOf(j));
  }

  lemma TableGrows(entries: seq<SmallSizeMemoryPool?>, after: seq<SmallSizeMemoryPool?>,
                   pools: map<nat, SmallSizeMemoryPool>, i: nat, pool: SmallSizeMemoryPool)
    requires IsClass(i) && TableUpTo(entries, pools, Before(i)) && pool.allocSize == i && |after| == |entries|
    requires forall k: nat :: k <= Before(i) ==> after[k] == entries[k]
    requires forall k: nat :: Before(i) < k <= i ==> after[k] == pool
    ensures TableUpTo(after, pools[i := pool], i)
  {
    hide ClassOf;
    var more := pools[i := pool];
    forall k: nat | 0 < k <= i
      ensures ClassOf(k) in more && after[k] == more[ClassOf(k)]
    {
      if k > Before(i) {
        NoClassBetween(i, k);
      }
    }
    forall c: nat
      ensures c in more <==> IsClass(c) && c <= i
    {
      if IsClass(c) && Before(i) < c <= i {
        NoClassBetween(i, c);
        ClassOfClass(c);
      }
    }
  }

  lemma ClassOfClass(c: nat)
    requires IsClass(c)
    ensures ClassOf(c) == c
  {
  }

  /** One of the constructor's loops: a pool for every `step` bytes from `first` on, and the entries that lead to it. */
  method AddClasses(table: array<SmallSizeMemoryPool?>, ghost pools: map<nat, SmallSizeMemoryPool>,
                    recent: nat, first: nat, bound: nat, step: nat)
    returns (last: nat, ghost more: map<nat, SmallSizeMemoryPool>)
    requires (first, bound, step) in {(32, 1024, 32), (1024, 2048, 128), (2048, 4097, 256)}
    requires recent == Before(first) && TableUpTo(table[..], pools, recent) && AllEmpty(pools)
    modifies table
    ensures last == (if bound == 4097 then 4096 else Before(bound))
    ensures TableUpTo(table[..], more, last) && AllEmpty(more)
    ensures forall c :: c in more ==> (c in pools && more[c] == pools[c]) || fresh(more[c])
  {
    hide ClassOf, TableUpTo;
    last, more := recent, pools;
    var i := first;
    while i < bound
      invariant first <= i < bound + step && i % step == 0 && last == Before(i)
      invariant TableUpTo(table[..], more, last) && AllEmpty(more)
      invariant forall c :: c in more ==> (c in pools && more[c] == pools[c]) || fresh(more[c])
    {
      var pool := new SmallSizeMemoryPool(i);
      FillEntries(table, more, last, i, pool);
      last, more := i, more[i := pool];
      i := i + step;
    }
  }

  /** The inner loop: all sizes above the last class lead to the new pool. */
  method FillEntries(table: array<SmallSizeMemoryPool?>, ghost pools: map<nat, SmallSizeMemoryPool>,
                     recent: nat, i: nat, pool: SmallSizeMemoryPool)
    requires IsClass(i) && recent == Before(i) && i <= MAX_ALLOC_SIZE && TableUpTo(table[..], pools, recent) && pool.allocSize == i
    modifies table
    ensures TableUpTo(table[..], pools[i := pool], i)
  {
    hide IsClass, ClassOf, TableUpTo;
    TableLength(table[..], pools, recent);
    ghost var was := table[..];
    var j := recent + 1;
    while j <= i
      invariant recent < j <= i + 1
      invariant forall k: nat :: k <= recent ==> table[k] == was[k]
      invariant forall k: nat :: recent < k < j ==> table[k] == pool
    {
      table[j] := pool;
      j := j + 1;
    }
    TableGrows(was, table[..], pools, i, pool);
  }

  lemma TableLength(entries: seq<SmallSizeMemoryPool?>, pools: map<nat, SmallSizeMemoryPool>, n: nat)
    requires TableUpTo(entries, pools, n)
    ensures |entries| == MAX_ALLOC_SIZE + 1
  {
  }

  /** The table of the constructor: the three loops one after the other. */
  method BuildTable() returns (table: array<SmallSizeMemoryPool?>, ghost pools: map<nat, SmallSizeMemoryPool>)
    ensures fresh(table) && TableUpTo(table[..], pools, MAX_ALLOC_SIZE) && AllEmpty(pools)
    ensures forall c :: c in pools ==> fresh(pools[c])
    ensures pools.Keys == Empty().free.Keys
  {
    table := new SmallSizeMemoryPool?[MAX_ALLOC_SIZE + 1](_ => null);
    pools := map[];
    var recent := 0;
    recent, pools := AddClasses(table, pools, recent, 32, 1024, 32);
    recent, pools := AddClasses(table, pools, recent, 1024, 2048, 128);
    recent, pools := AddClasses(table, pools, recent, 2048, 4097, 256);
  }

  /** `live` remembers which blocks are handed out, and how many bytes were asked for. */
  class MemoryPool {
    const heap: Heap
    const table: array<SmallSizeMemoryPool?>
    ghost const pools: map<nat, SmallSizeMemoryPool>
    ghost var live: map<nat, nat>

    ghost function FreeLists(): map<nat, seq<nat>>
      reads pools.Values
    {
      map c | c in pools :: pools[c].freeList
    }

    ghost function AllocCounts(): map<nat, int>
      reads pools.Values
    {
      map c | c in pools :: pools[c].allocCount
    }

    ghost function Contents(): Store
      reads this, heap, pools.Values
    {
      Store(heap.headers, heap.extents, live, FreeLists(), AllocCounts())
    }

    ghost predicate Valid()
      reads this, heap, table, pools.Values
    {
      TableUpTo(table[..], pools, MAX_ALLOC_SIZE) && Consistent(Contents())
    }

    /** The table leads to the pool of the smallest class, which is no other class's, and whose stack holds freed blocks. */
    lemma EntryFits(total: nat)
      requires Valid() && Pooled(total)
      ensures total < table.Length && ClassOf(total) in pools && table[total] == pools[ClassOf(total)]
      ensures forall c :: c in pools && c != ClassOf(total) ==> pools[c] != pools[ClassOf(total)]
      ensures pools[ClassOf(total)].allocSize == ClassOf(total) == BlockSize(total)
      ensures var stack := pools[ClassOf(total)].freeList;
        stack != [] ==> stack[0] in heap.headers && heap.headers[stack[0]].allocSize == 0
    {
      hide ClassOf, NoOverlap, AllLive, AllKept, AllCounted, IsClass;
      BlockClass(total);
      var c := ClassOf(total);
      assert FreeStack(Contents(), c, Contents().free[c]);
    }

    /** A header with a positive size marks a live block, and the size is the one asked for. */
    lemma HeaderTells(h: nat)
      requires Valid() && h in heap.headers
      ensures h in live <==> heap.headers[h].allocSize > 0
      ensures h in live ==> heap.headers[h].allocSize == live[h]
    {
      hide ClassOf, NoOverlap, AllCounted, IsClass, TableUpTo, BlockSize;
      var s := Contents();
      assert Kept(s, h);
      assert h in s.live ==> LiveBlock(s, h);
      assert s.extents[h] in s.free ==> FreeStack(s, s.extents[h], s.free[s.extents[h]]);
    }

    constructor ()
      ensures Valid() && Contents() == Empty()
      ensures fresh(heap) && fresh(table) && forall c :: c in pools ==> fresh(pools[c])
    {
      hide ClassOf, Consistent;
      var entries, made := BuildTable();
      table := entries;
      heap := new Heap();
      pools, live := made, map[];
      new;
      assert Contents() == Empty();
      EmptyConsistent();
    }

    /** A block for `total` bytes, from the pool of its class or from the system; its header is not written yet. */
    method TakeBlock(total: nat, block: nat) returns (header: nat)
      requires Valid() && HEADER_SIZE <= total
      requires Reuses(Contents(), total) || Room(heap.extents, block, BlockSize(total))
      modifies heap`extents, pools.Values
      ensures header == Taken(old(Contents()), total, block)
      ensures var s := Allocated(old(Contents()), total, block);
        heap.extents == s.extents && FreeLists() == s.free && AllocCounts() == s.counts
    {
      hide ClassOf, TableUpTo, Consistent, Room, BlockSize;
      ghost var was := Contents();
      if total > MAX_ALLOC_SIZE {
        BlockClass(total);
        header := heap.AlignedMalloc(total, block);
        assert FreeLists() == was.free && AllocCounts() == was.counts;
      } else {
        EntryFits(total);
        ghost var c := ClassOf(total);
        header := table[total].Pop(heap, block);
        assert AllocCounts() == was.counts[c := was.counts[c] + 1];
        assert FreeLists() == if was.free[c] == [] then was.free else was.free[c := was.free[c][1..]];
      }
    }

    /** Memory for `size` bytes; `block` is what the system would give if asked. */
    method Allocate(size: nat, block: nat) returns (ptr: nat)
      requires Valid()
      requires Reuses(Contents(), size + HEADER_SIZE) || Room(heap.extents, block, BlockSize(size + HEADER_SIZE))
      modifies this`live, heap, pools.Values
      ensures Contents() == Allocated(old(Contents()), size + HEADER_SIZE, block)
      ensures ptr == Taken(old(Contents()), size + HEADER_SIZE, block) + HEADER_SIZE
      ensures Valid()
    {
      hide ClassOf, TableUpTo, Consistent, Room, BlockSize, Allocated, Taken, Reuses, MemoryPool.FreeLists, MemoryPool.AllocCounts;
      ghost var was := Contents();
      var total := size + HEADER_SIZE;
      AllocatedKeeps(was, total, block);
      AllocatedHeader(was, total, block);
      var header := TakeBlock(total, block);
      ghost var (lists, counts) := (FreeLists(), AllocCounts());
      heap.headers := heap.headers[header := Header(total, -1)];
      live := live[header := total];
      assert FreeLists() == lists && AllocCounts() == counts;
      assert Contents() == Allocated(was, total, block);
      return header + HEADER_SIZE;
    }

    /** Gives a block of `total` bytes back to the pool of its class or to the system. */
    method GiveBlock(header: nat, total: nat)
      requires 0 < total && TableUpTo(table[..], pools, MAX_ALLOC_SIZE)
      modifies heap, pools.Values
      ensures total > MAX_ALLOC_SIZE ==>
        && heap.headers == old(heap.headers) - {header} && heap.extents == old(heap.extents) - {header}
        && FreeLists() == old(FreeLists()) && AllocCounts() == old(AllocCounts())
      ensures total <= MAX_ALLOC_SIZE ==>
        && heap.headers == old(heap.headers) && heap.extents == old(heap.extents)
        && ClassOf(total) in old(FreeLists()) && ClassOf(total) in old(AllocCounts())
        && FreeLists() == old(FreeLists())[ClassOf(total) := [header] + old(FreeLists())[ClassOf(total)]]
        && AllocCounts() == old(AllocCounts())[ClassOf(total) := old(AllocCounts())[ClassOf(total)] - 1]
    {
      hide ClassOf;
      ghost var (lists, counts) := (FreeLists(), AllocCounts());
      if total > MAX_ALLOC_SIZE {
        heap.AlignedFree(header);
        assert FreeLists() == lists && AllocCounts() == counts;
      } else {
        table[total].Push(header);
        ghost var c := ClassOf(total);
        assert AllocCounts() == counts[c := counts[c] - 1];
        assert FreeLists() == lists[c := [header] + lists[c]];
      }
    }

    /** Gives memory back; a block given back twice is noticed by its header. */
    method Deallocate(ptr: nat, extraInfo: int) returns (crashed: bool)
      requires Valid() && HEADER_SIZE <= ptr && ptr - HEADER_SIZE in heap.headers
      modifies this`live, heap, pools.Values
      ensures crashed <==> ptr - HEADER_SIZE !in old(live)
      ensures !crashed ==> Contents() == Freed(old(Contents()), ptr - HEADER_SIZE, extraInfo)
      ensures !crashed ==> Valid()
    {
      hide ClassOf, TableUpTo, Consistent, Room, BlockSize, MemoryPool.FreeLists, MemoryPool.AllocCounts;
      ghost var was := Contents();
      var header := ptr - HEADER_SIZE;
      HeaderTells(header);
      var total := heap.headers[header].allocSize;
      if 0 < total {
        FreedKeeps(was, header, extraInfo);
        BlockClass(total);
      }
      heap.headers := heap.headers[header := Header(0, extraInfo)];
      if total <= 0 {
        return true;
      }
      live := live - {header};
      GiveBlock(header, total);
      assert heap.headers == (if total > MAX_ALLOC_SIZE then was.headers - {header} else was.headers[header := Header(0, extraInfo)]);
      assert Contents() == Freed(was, header, extraInfo);
      return false;
    }
  }
}
