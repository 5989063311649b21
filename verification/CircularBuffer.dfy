/** The two-region circular buffer: data in region A wraps into region B at the front of the array. */
module Circular {
  import opened Digits
  import opened Options

  function Min(x: nat, y: nat): nat {
    if x < y then x else y
  }

  /** The state of a buffer: the array, and the two regions as offsets and sizes (`b` is B's pointer). */
  datatype Ring = Ring(mem: seq<Byte>, a: nat, aSize: nat, b: Option<nat>, bSize: nat) {

    /**
     * What holds between calls. While B exists it starts at the front and lies before A, A holds data,
     * and the space behind A is smaller than the space in front of it.
     */
    predicate Valid() {
      && a + aSize <= |mem|
      && (aSize == 0 ==> a == 0)
      && (b.None? ==> bSize == 0)
      && (b.Some? ==> b.value == 0 && bSize <= a && aSize > 0 && Tail() < a)
    }

    function Tail(): int {
      |mem| - a - aSize
    }

    function Stored(): nat {
      aSize + bSize
    }

    /** The bytes held, oldest first. */
    function Contents(): seq<Byte>
      requires Valid()
    {
      mem[a..a + aSize] + mem[..bSize]
    }

    /** What the free-space getter leaves behind: B is created when the space before A is the larger. */
    function Switched(): Ring
      requires Valid()
    {
      if b.None? && Tail() < a then this.(b := Some(0)) else this
    }

    /** The free space the getter reports. */
    function Free(): nat
      requires Valid()
    {
      if b.Some? then a - bSize else if Tail() < a then a else Tail()
    }

    /** The room behind the write position, whether or not B is about to be created. */
    function Behind(): nat
      requires Valid()
    {
      if b.Some? then a - bSize else Tail()
    }

    /** Where the next byte is written. */
    function WriteAt(): nat {
      if b.Some? then b.value + bSize else a + aSize
    }

    /** First byte and length of the oldest contiguous run. */
    function Start(): nat {
      if aSize > 0 then a else b.GetOr(0)
    }

    function Contiguous(): nat {
      if aSize > 0 then aSize else bSize
    }

    /** Commit: the region written to grows by `len`. */
    function Committed(len: nat): Ring {
      if b.Some? then this.(bSize := bSize + len) else this.(aSize := aSize + len)
    }

    /** Copying `data` to the write position and committing it. */
    function Appended(data: seq<Byte>): Ring
      requires WriteAt() + |data| <= |mem|
    {
      this.(mem := mem[..WriteAt()] + data + mem[WriteAt() + |data|..]).Committed(|data|)
    }

    function Written(data: seq<Byte>): Ring
      requires Valid()
    {
      if |data| <= Free() then Switched().Appended(data) else Switched()
    }

    /** Dropping up to `len` bytes: from A, then from B, and B moves to the front as the new A when A is empty. */
    function Removed(len: nat): Ring
      requires Valid()
    {
      if len < aSize then
        this.(a := a + len, aSize := aSize - len)
      else
        var gone := Min(len - aSize, bSize);
        var left := bSize - gone;
        Ring(mem[gone..bSize] + mem[left..], 0, left, None, 0)
    }

    function Reset(): Ring {
      Ring(seq(|mem|, _ => 0), 0, 0, None, 0)
    }
  }

  // Every operation on the ring is an operation on a byte queue

  lemma SwitchedKeeps(r: Ring)
    requires r.Valid()
    ensures r.Switched().Valid() && r.Switched().Contents() == r.Contents() && |r.Switched().mem| == |r.mem|
    ensures r.Switched().Free() == r.Free() && r.Switched().Switched() == r.Switched()
    ensures r.Switched().Behind() == r.Free() && r.WriteAt() + r.Behind() <= |r.mem|
  {
  }

  lemma AppendedContents(r: Ring, data: seq<Byte>)
    requires r.Valid() && |data| <= r.Behind()
    ensures r.Appended(data).Valid()
    ensures r.Appended(data).Contents() == r.Contents() + data
    ensures |r.Appended(data).mem| == |r.mem| && r.Appended(data).Behind() == r.Behind() - |data|
  {
    var t := r.Appended(data);
    if r.b.Some? {
      assert t.mem[..t.bSize] == r.mem[..r.bSize] + data;
      assert t.mem[t.a..t.a + t.aSize] == r.mem[r.a..r.a + r.aSize];
    } else {
      assert t.mem[t.a..t.a + t.aSize] == r.mem[r.a..r.a + r.aSize] + data;
    }
  }

  /** A write appends when it fits the reported free space and is otherwise refused, leaving the contents alone. */
  lemma WrittenContents(r: Ring, data: seq<Byte>)
    requires r.Valid()
    ensures r.Written(data).Valid() && |r.Written(data).mem| == |r.mem|
    ensures r.Written(data).Contents() == if |data| <= r.Free() then r.Contents() + data else r.Contents()
  {
    SwitchedKeeps(r);
    if |data| <= r.Free() {
      AppendedContents(r.Switched(), data);
    }
  }

  /** Removing drops the oldest bytes, as many as there are. */
  lemma RemovedContents(r: Ring, len: nat)
    requires r.Valid()
    ensures r.Removed(len).Valid() && |r.Removed(len).mem| == |r.mem|
    ensures r.Removed(len).Contents() == r.Contents()[Min(len, r.Stored())..]
  {
    var t := r.Removed(len);
    if len < r.aSize {
      assert t.mem[t.a..t.a + t.aSize] == r.mem[r.a..r.a + r.aSize][len..];
    } else {
      var gone := Min(len - r.aSize, r.bSize);
      assert t.Contents() == r.mem[gone..r.bSize];
      assert r.Contents()[Min(len, r.Stored())..] == r.mem[..r.bSize][gone..];
    }
  }

  lemma BAtFront(r: Ring)
    requires r.Valid()
    ensures r.bSize > 0 ==> r.b == Some(0)
    ensures r.aSize == 0 ==> r.bSize == 0
  {
  }

  lemma RemovedFromA(r: Ring, len: nat)
    requires r.Valid() && len < r.aSize
    ensures r.Removed(len) == r.(a := r.a + len, aSize := r.aSize - len)
  {
  }

  lemma WrittenCases(r: Ring, data: seq<Byte>)
    requires r.Valid()
    ensures r.Written(data) == if |data| <= r.Free() then r.Switched().Appended(data) else r.Switched()
  {
  }

  /** Stored bytes and reported free space together are never less than half the capacity. */
  lemma SpaceBound(r: Ring)
    requires r.Valid()
    ensures 2 * (r.Stored() + r.Free()) >= |r.mem|
    ensures r.Stored() + r.Free() <= |r.mem|
  {
  }

  /** The space reported is the larger of the two gaps around A, and all of the gap before A once B is in it. */
  lemma FreeIsLargestGap(r: Ring)
    requires r.Valid()
    ensures r.b.None? ==> r.Free() >= r.a && r.Free() >= |r.mem| - r.a - r.aSize && r.Free() in {r.a, |r.mem| - r.a - r.aSize}
    ensures r.b.Some? ==> r.Free() + r.bSize == r.a
  {
  }

  /** So a write always succeeds while the queue stays within half the capacity. */
  lemma HalfCapacityIsUsable(r: Ring, data: seq<Byte>)
    requires r.Valid() && 2 * (|r.Contents()| + |data|) <= |r.mem|
    ensures r.Written(data).Contents() == r.Contents() + data
  {
    SpaceBound(r);
    WrittenContents(r, data);
  }

  // Whole runs of calls

  /** `Fill`: the caller copies to the write position and commits; it keeps to the room behind that position. */
  datatype Call =
    | FreeSpace
    | Fill(data: seq<Byte>)
    | Peek(bytes: nat)
    | Read(bytes: nat)
    | Write(data: seq<Byte>)
    | Remove(len: nat)
    | Reset

  datatype Reply =
    | Done
    | Size(size: nat)
    | Refused
    | Bytes(bytes: seq<Byte>)

  function Apply(r: Ring, call: Call): (Ring, Reply)
    requires r.Valid()
  {
    match call
    case FreeSpace => (r.Switched(), Size(r.Free()))
    case Fill(data) => if |data| <= r.Behind() then (r.Appended(data), Done) else (r, Refused)
    case Peek(n) => (r, if n <= r.Stored() then Bytes(r.Contents()[..n]) else Refused)
    case Read(n) => if n <= r.Stored() then (r.Removed(n), Bytes(r.Contents()[..n])) else (r, Refused)
    case Write(data) => (r.Written(data), if |data| <= r.Free() then Done else Refused)
    case Remove(n) => (r.Removed(n), Done)
    case Reset => (r.Reset(), Done)
  }

  /**
   * The reference: a byte queue. `room` is what is left of the free space last reported, as long as only
   * fills and peeks have come after the report.
   */
  datatype Queue = Queue(bytes: seq<Byte>, room: Option<nat>)

  function RoomAfter(room: Option<nat>, call: Call, reply: Reply): Option<nat> {
    match call
    case FreeSpace => if reply.Size? then Some(reply.size) else None
    case Fill(data) =>
      if reply == Done && room.Some? then if |data| <= room.value then Some(room.value - |data|) else None
      else room
    case Peek(_) => room
    case _ => None
  }

  /** One call on the queue, in a store of `capacity` bytes of which at least half is usable. */
  predicate QueueStep(q: Queue, call: Call, reply: Reply, q': Queue, capacity: nat) {
    && q'.room == RoomAfter(q.room, call, reply)
    && |q'.bytes| <= capacity
    && match call
      case FreeSpace => reply.Size? && q'.bytes == q.bytes && capacity <= 2 * (|q.bytes| + reply.size) && |q.bytes| + reply.size <= capacity
      case Fill(data) =>
        && (reply == Done || reply == Refused)
        && (q.room.Some? ==> (reply == Done <==> |data| <= q.room.value))
        && q'.bytes == if reply == Done then q.bytes + data else q.bytes
      case Peek(n) => q'.bytes == q.bytes && reply == if n <= |q.bytes| then Bytes(q.bytes[..n]) else Refused
      case Read(n) =>
        if n <= |q.bytes| then reply == Bytes(q.bytes[..n]) && q'.bytes == q.bytes[n..]
        else reply == Refused && q'.bytes == q.bytes
      case Write(data) =>
        || (reply == Done && q'.bytes == q.bytes + data)
        || (reply == Refused && q'.bytes == q.bytes && 2 * (|q.bytes| + |data|) > capacity)
      case Remove(n) => reply == Done && q'.bytes == q.bytes[Min(n, |q.bytes|)..]
      case Reset => reply == Done && q'.bytes == []
  }

  /** A ring stands for a queue: the same bytes, and a reported room is what lies behind the write position. */
  predicate Represents(r: Ring, q: Queue)
    requires r.Valid()
  {
    r.Contents() == q.bytes && (q.room.Some? ==> r.Behind() == q.room.value)
  }

  lemma StoredIsLength(r: Ring)
    requires r.Valid()
    ensures |r.Contents()| == r.Stored() <= |r.mem|
  {
  }

  lemma ResetContents(r: Ring)
    requires r.Valid()
    ensures r.Reset().Valid() && r.Reset().Contents() == [] && |r.Reset().mem| == |r.mem|
  {
  }

  /** What the queue is after a call with this reply. */
  function QueueAfter(q: Queue, call: Call, reply: Reply, end: seq<Byte>): Queue {
    Queue(end, RoomAfter(q.room, call, reply))
  }

  lemma ApplyRefines(r: Ring, q: Queue, call: Call)
    requires r.Valid() && Represents(r, q)
    ensures var (t, reply) := Apply(r, call);
      && t.Valid() && |t.mem| == |r.mem|
      && Represents(t, QueueAfter(q, call, reply, t.Contents()))
      && QueueStep(q, call, reply, QueueAfter(q, call, reply, t.Contents()), |r.mem|)
  {
    hide Ring.Contents, Ring.Removed, Ring.Written, Ring.Appended, Ring.Switched, Ring.Free, Ring.Behind, Ring.Valid;
    SwitchedKeeps(r);
    SpaceBound(r);
    StoredIsLength(r);
    ResetContents(r);
    var (t, reply) := Apply(r, call);
    match call
    case FreeSpace =>
      StoredIsLength(t);
    case Fill(data) =>
      if |data| <= r.Behind() {
        AppendedContents(r, data);
      }
      StoredIsLength(t);
    case Peek(n) =>
    case Read(n) =>
      RemovedContents(r, n);
      StoredIsLength(t);
    case Write(data) =>
      WrittenContents(r, data);
      StoredIsLength(t);
    case Remove(n) =>
      RemovedContents(r, n);
      StoredIsLength(t);
    case Reset =>
  }

  function Run(r: Ring, calls: seq<Call>): (Ring, seq<Reply>)
    requires r.Valid()
    decreases |calls|
  {
    if calls == [] then
      (r, [])
    else
      ApplyRefines(r, Queue(r.Contents(), None), calls[0]);
      var (t, reply) := Apply(r, calls[0]);
      var (end, replies) := Run(t, calls[1..]);
      (end, [reply] + replies)
  }

  /** The replies and the final contents are those of some run of the byte queue. */
  ghost predicate QueueRun(q: Queue, calls: seq<Call>, replies: seq<Reply>, end: seq<Byte>, capacity: nat)
    decreases |calls|
  {
    if calls == [] then
      replies == [] && end == q.bytes
    else
      && replies != []
      && exists next :: QueueStep(q, calls[0], replies[0], next, capacity) && QueueRun(next, calls[1..], replies[1..], end, capacity)
  }

  lemma {:induction false} RunRefines(r: Ring, q: Queue, calls: seq<Call>)
    requires r.Valid() && Represents(r, q)
    ensures var (end, replies) := Run(r, calls);
      && end.Valid() && |end.mem| == |r.mem|
      && QueueRun(q, calls, replies, end.Contents(), |r.mem|)
    decreases |calls|
  {
    hide QueueStep, Apply, Ring.Valid, Ring.Contents;
    if calls != [] {
      ApplyRefines(r, q, calls[0]);
      var (t, reply) := Apply(r, calls[0]);
      var next := QueueAfter(q, calls[0], reply, t.Contents());
      RunRefines(t, next, calls[1..]);
      var (end, replies) := Run(t, calls[1..]);
      assert ([reply] + replies)[1..] == replies;
    }
  }

  /** Asking for the free space and then filling no more than was reported always appends. */
  lemma ReportedIsUsable(r: Ring, data: seq<Byte>)
    requires r.Valid()
    ensures |data| <= r.Free() <==> Apply(Apply(r, FreeSpace).0, Fill(data)).1 == Done
    ensures |data| <= r.Free() ==>
      var t := Apply(Apply(r, FreeSpace).0, Fill(data)).0; t.Valid() && t.Contents() == r.Contents() + data
  {
    hide Ring.Contents, Ring.Appended, Ring.Switched, Ring.Free, Ring.Behind;
    SwitchedKeeps(r);
    if |data| <= r.Free() {
      AppendedContents(r.Switched(), data);
    }
  }

  class CircularBuffer {
    const buffer: array<Byte>
    var aRegionPointer: nat
    var aRegionSize: nat
    /** Offset of region B, or no pointer. */
    var bRegionPointer: Option<nat>
    var bRegionSize: nat

    ghost function State(): Ring
      reads this, buffer
    {
      Ring(buffer[..], aRegionPointer, aRegionSize, bRegionPointer, bRegionSize)
    }

    ghost predicate Valid()
      reads this, buffer
    {
      State().Valid()
    }

    ghost function Contents(): seq<Byte>
      reads this, buffer
      requires Valid()
    {
      State().Contents()
    }

    constructor (capacity: nat)
      ensures Valid() && fresh(buffer) && buffer.Length == capacity && Contents() == []
      ensures State() == Ring(buffer[..], 0, 0, None, 0)
    {
      buffer := new Byte[capacity](_ => 0);
      aRegionPointer, aRegionSize := 0, 0;
      bRegionPointer, bRegionSize := None, 0;
    }

    method BufferReset()
      modifies this, buffer
      ensures Valid() && State() == old(State()).Reset() && Contents() == []
    {
      bRegionPointer := None;
      aRegionSize := 0;
      bRegionSize := 0;
      forall i | 0 <= i < buffer.Length {
        buffer[i] := 0;
      }
      aRegionPointer := 0;
      assert buffer[..] == seq(buffer.Length, _ => 0);
    }

    function GetAFreeSpace(): int
      reads this
    {
      buffer.Length - aRegionPointer - aRegionSize
    }

    function GetSpaceBeforeA(): nat
      reads this
    {
      aRegionPointer
    }

    function GetBFreeSpace(): int
      reads this
    {
      if bRegionPointer.None? then 0 else aRegionPointer - bRegionPointer.value - bRegionSize
    }

    function GetStoredSize(): nat
      reads this
    {
      aRegionSize + bRegionSize
    }

    function GetContiguiousBytes(): nat
      reads this
    {
      if aRegionSize > 0 then aRegionSize else bRegionSize
    }

    /** The write position, as an offset. */
    function GetBuffer(): nat
      reads this
    {
      if bRegionPointer.Some? then bRegionPointer.value + bRegionSize else aRegionPointer + aRegionSize
    }

    /** The read position, as an offset (meaningless when nothing is stored). */
    function GetBufferStart(): nat
      reads this
    {
      if aRegionSize > 0 then aRegionPointer else bRegionPointer.GetOr(0)
    }

    method AllocateB()
      modifies this`bRegionPointer
      ensures bRegionPointer == Some(0)
    {
      bRegionPointer := Some(0);
    }

    /** A getter that may create region B. */
    method GetFreeSpaceSize() returns (size: nat)
      requires Valid()
      modifies this
      ensures State() == old(State()).Switched() && Valid() && Contents() == old(Contents())
      ensures size == old(State()).Free() == State().Free()
      ensures 2 * (GetStoredSize() + size) >= buffer.Length
    {
      SwitchedKeeps(State());
      SpaceBound(State());
      if bRegionPointer.Some? {
        size := GetBFreeSpace();
      } else if GetAFreeSpace() < GetSpaceBeforeA() {
        AllocateB();
        size := GetBFreeSpace();
      } else {
        size := GetAFreeSpace();
      }
    }

    /** Bytes put at the write position by the caller become part of the contents. */
    method Commit(len: nat)
      requires Valid() && len <= State().Behind()
      modifies this`aRegionSize, this`bRegionSize
      ensures State() == old(State()).Committed(len) && Valid()
      ensures Contents() == old(Contents() + buffer[GetBuffer()..GetBuffer() + len])
    {
      hide Ring.Contents;
      ghost var was, data := State(), buffer[GetBuffer()..GetBuffer() + len];
      AppendedContents(was, data);
      assert was.Appended(data).mem == was.mem;
      if bRegionPointer.Some? {
        bRegionSize := bRegionSize + len;
      } else {
        aRegionSize := aRegionSize + len;
      }
    }

    method Peek(destbuf: array<Byte>, bytes: nat) returns (ok: bool)
      requires Valid() && destbuf != buffer && bytes <= destbuf.Length
      modifies destbuf
      ensures State() == old(State())
      ensures ok <==> bytes <= GetStoredSize()
      ensures ok ==> destbuf[..] == Contents()[..bytes] + old(destbuf[bytes..])
      ensures !ok ==> destbuf[..] == old(destbuf[..])
    {
      if aRegionSize + bRegionSize < bytes {
        return false;
      }
      ghost var was := destbuf[..];
      var cnt := bytes;
      var aRead := 0;
      if aRegionSize > 0 {
        aRead := if cnt > aRegionSize then aRegionSize else cnt;
        CopyOut(destbuf, 0, aRegionPointer, aRead);
        cnt := cnt - aRead;
      }
      if cnt > 0 && bRegionSize > 0 {
        assert cnt <= bRegionSize;
        var bRead := cnt;
        CopyOut(destbuf, aRead, bRegionPointer.value, bRead);
        cnt := cnt - bRead;
      }
      assert cnt == 0;
      PeekedBytes(State(), destbuf[..], was, bytes);
      return true;
    }

    /** The copying half of `Read`: take from A first, the rest from B, moving the region pointers along. */
    method TakeFront(destbuf: array<Byte>, bytes: nat)
      requires Valid() && destbuf != buffer && bytes <= destbuf.Length && bytes <= GetStoredSize()
      modifies this, destbuf
      ensures destbuf[..] == old(Contents())[..bytes] + old(destbuf[bytes..])
      ensures var fromA := Min(bytes, old(aRegionSize));
        && aRegionPointer == old(aRegionPointer) + fromA && aRegionSize == old(aRegionSize) - fromA
        && bRegionSize == old(bRegionSize) - (bytes - fromA)
        && bRegionPointer == if bytes > fromA then Some(bytes - fromA) else old(bRegionPointer)
    {
      hide Ring.Contents;
      ghost var was, ring := destbuf[..], State();
      var cnt := bytes;
      var aRead := 0;
      if aRegionSize > 0 {
        aRead := if cnt > aRegionSize then aRegionSize else cnt;
        CopyOut(destbuf, 0, aRegionPointer, aRead);
        aRegionSize := aRegionSize - aRead;
        aRegionPointer := aRegionPointer + aRead;
        cnt := cnt - aRead;
      }
      if cnt > 0 && bRegionSize > 0 {
        assert cnt <= bRegionSize;
        var bRead := cnt;
        CopyOut(destbuf, aRead, bRegionPointer.value, bRead);
        bRegionSize := bRegionSize - bRead;
        bRegionPointer := Some(bRegionPointer.value + bRead);
        cnt := cnt - bRead;
      }
      assert cnt == 0;
      PeekedBytes(ring, destbuf[..], was, bytes);
    }

    method Read(destbuf: array<Byte>, bytes: nat) returns (ok: bool)
      requires Valid() && destbuf != buffer && bytes <= destbuf.Length
      modifies this, buffer, destbuf
      ensures Valid()
      ensures ok <==> bytes <= old(GetStoredSize())
      ensures ok ==> State() == old(State()).Removed(bytes)
      ensures ok ==> destbuf[..] == old(Contents())[..bytes] + old(destbuf[bytes..])
      ensures ok ==> Contents() == old(Contents())[bytes..]
      ensures !ok ==> State() == old(State()) && destbuf[..] == old(destbuf[..])
    {
      hide Ring.Contents, Ring.Removed, Ring.Valid;
      if aRegionSize + bRegionSize < bytes {
        return false;
      }
      ghost var ring := State();
      BAtFront(ring);
      RemovedContents(ring, bytes);
      if bytes < aRegionSize {
        RemovedFromA(ring, bytes);
      }
      TakeFront(destbuf, bytes);
      if aRegionSize == 0 {
        SwitchBToA(ring, bytes);
      }
      return true;
    }

    /** The end of `Read` and `Remove`: A is used up, so what is left of B moves to the front and becomes A. */
    method SwitchBToA(ghost before: Ring, ghost len: nat)
      requires before.Valid() && buffer[..] == before.mem && len >= before.aSize
      requires aRegionSize == 0 && bRegionSize == before.bSize - Min(len - before.aSize, before.bSize)
      requires bRegionSize > 0 ==> bRegionPointer == Some(before.bSize - bRegionSize)
      modifies this, buffer
      ensures State() == before.Removed(len)
    {
      hide Ring.Removed;
      ghost var left := bRegionSize;
      if bRegionSize > 0 {
        if bRegionPointer.value != 0 {
          MoveToFront(bRegionPointer.value, bRegionSize);
        }
        assert buffer[..] == before.mem[before.bSize - left..before.bSize] + before.mem[left..] by {
          CutAt(before.mem, left);
        }
        aRegionPointer := 0;
        aRegionSize := bRegionSize;
        bRegionPointer := None;
        bRegionSize := 0;
      } else {
        CutAt(before.mem, 0);
        bRegionPointer := None;
        bRegionSize := 0;
        aRegionPointer := 0;
        aRegionSize := 0;
      }
      MovedToFront(before, len, buffer[..], left);
    }

    /** memmove to the start of the array. */
    method MoveToFront(from: nat, size: nat)
      requires from + size <= buffer.Length
      modifies buffer
      ensures buffer[..] == old(buffer[from..from + size]) + old(buffer[size..])
    {
      forall i | 0 <= i < size {
        buffer[i] := buffer[from + i];
      }
    }

    method Write(data: seq<Byte>) returns (ok: bool)
      requires Valid()
      modifies this, buffer
      ensures Valid() && State() == old(State()).Written(data)
      ensures ok <==> |data| <= old(State()).Free()
      ensures Contents() == if ok then old(Contents()) + data else old(Contents())
    {
      hide Ring.Contents, Ring.Written, Ring.Appended;
      ghost var ring := State();
      var bytes := |data|;
      WrittenCases(ring, data);
      WrittenContents(ring, data);
      SwitchedKeeps(ring);
      if bRegionPointer.Some? {
        if GetBFreeSpace() < bytes {
          return false;
        }
        PutB(data);
        return true;
      }
      if GetAFreeSpace() < GetSpaceBeforeA() {
        AllocateB();
        if GetBFreeSpace() < bytes {
          return false;
        }
        PutB(data);
        return true;
      } else {
        if GetAFreeSpace() < bytes {
          return false;
        }
        PutA(data);
        return true;
      }
    }

    method PutB(data: seq<Byte>)
      requires bRegionPointer.Some? && bRegionPointer.value + bRegionSize + |data| <= buffer.Length
      modifies this`bRegionSize, buffer
      ensures State() == old(State()).Appended(data)
    {
      CopyIn(bRegionPointer.value + bRegionSize, data);
      bRegionSize := bRegionSize + |data|;
    }

    method PutA(data: seq<Byte>)
      requires bRegionPointer.None? && aRegionPointer + aRegionSize + |data| <= buffer.Length
      modifies this`aRegionSize, buffer
      ensures State() == old(State()).Appended(data)
    {
      CopyIn(aRegionPointer + aRegionSize, data);
      aRegionSize := aRegionSize + |data|;
    }

    /** memcpy into the array. */
    method CopyIn(at: nat, data: seq<Byte>)
      requires at + |data| <= buffer.Length
      modifies buffer
      ensures buffer[..] == old(buffer[..at]) + data + old(buffer[at + |data|..])
    {
      forall i | 0 <= i < |data| {
        buffer[at + i] := data[i];
      }
    }

    /** memcpy out of the array. */
    method CopyOut(destbuf: array<Byte>, at: nat, from: nat, size: nat)
      requires destbuf != buffer && at + size <= destbuf.Length && from + size <= buffer.Length
      modifies destbuf
      ensures forall i :: 0 <= i < destbuf.Length ==>
        destbuf[i] == if at <= i < at + size then buffer[from + (i - at)] else old(destbuf[i])
    {
      forall i | 0 <= i < size {
        destbuf[at + i] := buffer[from + i];
      }
    }

    method Remove(len: nat)
      requires Valid()
      modifies this, buffer
      ensures Valid() && State() == old(State()).Removed(len)
      ensures Contents() == old(Contents())[Min(len, old(GetStoredSize()))..]
    {
      hide Ring.Contents, Ring.Removed;
      ghost var ring := State();
      RemovedContents(ring, len);
      if len < aRegionSize {
        RemovedFromA(ring, len);
      }
      var cnt := len;
      if aRegionSize > 0 {
        var aRemove := if cnt > aRegionSize then aRegionSize else cnt;
        aRegionSize := aRegionSize - aRemove;
        aRegionPointer := aRegionPointer + aRemove;
        cnt := cnt - aRemove;
      }
      if cnt > 0 && bRegionSize > 0 {
        var bRemove := if cnt > bRegionSize then bRegionSize else cnt;
        bRegionSize := bRegionSize - bRemove;
        bRegionPointer := Some(bRegionPointer.value + bRemove);
        cnt := cnt - bRemove;
      }
      if aRegionSize == 0 {
        SwitchBToA(ring, len);
      }
    }
  }

  lemma CutAt(s: seq<Byte>, n: nat)
    requires n <= |s|
    ensures s == s[0..n] + s[n..] && s[n..n] == []
  {
  }

  /** memmove of what is left of B to the front of the array gives the array that dropping bytes specifies. */
  lemma MovedToFront(before: Ring, len: nat, mem: seq<Byte>, left: nat)
    requires before.Valid() && len >= before.aSize && |mem| == |before.mem|
    requires left == before.bSize - Min(len - before.aSize, before.bSize)
    requires mem == before.mem[before.bSize - left..before.bSize] + before.mem[left..]
    ensures before.Removed(len) == Ring(mem, 0, left, None, 0)
  {
  }

  lemma PeekedBytes(r: Ring, dest: seq<Byte>, was: seq<Byte>, bytes: nat)
    requires r.Valid() && bytes <= r.Stored() && bytes <= |was| == |dest|
    requires forall i :: 0 <= i < Min(bytes, r.aSize) ==> dest[i] == r.mem[r.a + i]
    requires forall i :: r.aSize <= i < bytes ==> dest[i] == r.mem[i - r.aSize]
    requires forall i :: bytes <= i < |was| ==> dest[i] == was[i]
    ensures dest == r.Contents()[..bytes] + was[bytes..]
  {
    assert |dest| == |r.Contents()[..bytes] + was[bytes..]|;
  }
}
