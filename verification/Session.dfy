/** The session object itself: the methods whose locked sections are the atomic steps of the send protocol. */
module Sessions {
  import opened Digits
  import opened Options
  import opened Circular
  import opened Sending

  /** A worker thread and its thread-local list of sessions to flush. */
  class WorkerThread {
    var sendRequestSessionList: seq<Session>

    constructor ()
      ensures sendRequestSessionList == []
    {
      sendRequestSessionList := [];
    }
  }

  class Session {
    const sendBuffer: CircularBuffer
    var sendPendingCount: nat
    var connected: bool
    /** History the proofs speak of: the send in flight, bytes accepted, bytes sent, and whether every send was full. */
    ghost var flight: Option<Flight>
    ghost var accepted: seq<Byte>
    ghost var wire: seq<Byte>
    ghost var allFull: bool

    ghost function Model(): Connection
      reads this, sendBuffer, sendBuffer.buffer
    {
      Connection(sendBuffer.State(), connected, sendPendingCount, flight, accepted, wire, allFull)
    }

    ghost predicate Valid()
      reads this, sendBuffer, sendBuffer.buffer
    {
      sendBuffer.Valid() && FlightInv(Model()) && Conserved(Model())
    }

    constructor (sendBufSize: nat)
      ensures Valid() && fresh(sendBuffer) && fresh(sendBuffer.buffer)
      ensures sendBuffer.buffer.Length == sendBufSize
      ensures Model() == Init(sendBuffer.buffer[..], 0).conn.(connected := false)
    {
      sendBuffer := new CircularBuffer(sendBufSize);
      sendPendingCount := 0;
      connected := false;
      flight, accepted, wire, allFull := None, [], [], true;
    }

    predicate IsConnected()
      reads this
    {
      connected
    }

    /** The interlocked exchange; `ok` is false where the source's assertion crashes the process. */
    method AcceptCompletion() returns (ok: bool)
      requires Valid()
      modifies this`connected
      ensures Valid() && ok == !old(connected) && Model() == old(Model()).(connected := true)
    {
      hide Ring.Contents, Ring.Valid;
      ok := !connected;
      connected := true;
    }

    /** The interlocked exchange; the first caller goes on to request the disconnect. */
    method DisconnectRequest() returns (first: bool)
      modifies this`connected
      ensures !connected && first == old(connected)
    {
      first := connected;
      connected := false;
    }

    method PostSend(data: seq<Byte>, worker: WorkerThread) returns (ok: bool)
      requires Valid()
      modifies this`accepted, sendBuffer, sendBuffer.buffer, worker
      ensures Valid()
      ensures ok <==> connected && |data| <= old(sendBuffer.State()).Free()
      ensures connected ==> (Model(), ok) == PostLocked(old(Model()), data)
      ensures !connected ==> Model() == old(Model())
      ensures worker.sendRequestSessionList == old(worker.sendRequestSessionList) + if ok then [this] else []
      ensures sendBuffer.Contents() == old(sendBuffer.Contents()) + if ok then data else []
    {
      hide Ring.Contents, Ring.Valid, Ring.Appended, Ring.Written, Ring.Switched, Ring.Free, FlightInv, Conserved, PostLocked;
      if !IsConnected() {
        return false;
      }
      ghost var was := sendBuffer.State();
      PostLockedCases(Model(), data);
      PostKeeps(Model(), data);
      WrittenContents(was, data);
      WrittenCases(was, data);
      SwitchedKeeps(was);
      var free := sendBuffer.GetFreeSpaceSize();
      if free < |data| {
        return false;
      }
      worker.sendRequestSessionList := worker.sendRequestSessionList + [this];
      FillSendBuffer(data);
      accepted := accepted + data;
      return true;
    }

    /** memcpy to the write position, then Commit. */
    method FillSendBuffer(data: seq<Byte>)
      requires sendBuffer.Valid() && sendBuffer.State().Switched() == sendBuffer.State() && |data| <= sendBuffer.State().Free()
      modifies sendBuffer, sendBuffer.buffer
      ensures sendBuffer.State() == old(sendBuffer.State()).Appended(data)
    {
      hide Ring.Contents;
      ghost var was := sendBuffer.State();
      SwitchedKeeps(was);
      var destData := sendBuffer.GetBuffer();
      sendBuffer.CopyIn(destData, data);
      CopiedIsValid(was, sendBuffer.State(), data);
      sendBuffer.Commit(|data|);
    }

    /** `accepts` is whether the kernel takes the overlapped send. */
    method FlushSend(accepts: bool) returns (drop: bool)
      requires Valid()
      modifies this`sendPendingCount, this`connected, this`flight
      ensures Valid()
      ensures !old(connected) ==> drop && Model() == old(Model())
      ensures old(connected) ==>
        var (c, result) := FlushLocked(old(Model()), accepts);
        && drop == (result != Retry)
        && Model() == if result == SendError then c.(connected := false) else c
    {
      hide Ring.Contents, Ring.Valid, FlightInv, Conserved;
      if !IsConnected() {
        var first := DisconnectRequest();
        return true;
      }
      FlushKeeps(Model(), accepts);
      DisconnectedKeeps(Model());
      ContiguousFits(sendBuffer.State());
      if 0 == sendBuffer.GetContiguiousBytes() {
        if 0 == sendPendingCount {
          return true;
        }
        return false;
      }
      if sendPendingCount > 0 {
        return false;
      }
      if !accepts {
        var first := DisconnectRequest();
        return true;
      }
      flight := Some(Flight(sendBuffer.GetBufferStart(),
        sendBuffer.buffer[sendBuffer.GetBufferStart()..sendBuffer.GetBufferStart() + sendBuffer.GetContiguiousBytes()], None));
      sendPendingCount := sendPendingCount + 1;
      return sendPendingCount == 1;
    }

    method SendCompletion(transferred: nat)
      requires Valid() && flight.Some? && transferred <= |flight.value.data|
      modifies this`sendPendingCount, this`flight, this`wire, this`allFull, sendBuffer, sendBuffer.buffer
      ensures Valid() && Model() == Completed(old(Model()), transferred)
      ensures wire == old(wire) + old(flight).value.data[..transferred]
    {
      hide Ring.Contents, Ring.Valid, Ring.Removed;
      CompletedKeeps(Model(), transferred);
      ghost var f := flight.value;
      assert f.data[..transferred] == sendBuffer.buffer[f.start..f.start + transferred];
      wire := wire + sendBuffer.buffer[f.start..f.start + transferred];
      allFull := allFull && transferred == |f.data|;
      flight := None;
      sendBuffer.Remove(transferred);
      sendPendingCount := sendPendingCount - 1;
    }
  }

  /** A session once accepted is where the runs of the send protocol start, whatever bytes its empty buffer holds. */
  method Connect(sendBufSize: nat) returns (session: Session)
    ensures fresh(session) && session.Valid()
    ensures session.sendBuffer.buffer.Length == sendBufSize
    ensures session.Model() == Init(session.sendBuffer.buffer[..], 0).conn
  {
    session := new Session(sendBufSize);
    var ok := session.AcceptCompletion();
    assert ok;
  }

  /** Clearing the connected flag touches neither the buffer nor the send in flight. */
  lemma DisconnectedKeeps(c: Connection)
    requires c.ring.Valid() && FlightInv(c) && Conserved(c)
    ensures FlightInv(c.(connected := false)) && Conserved(c.(connected := false))
  {
  }

  lemma ContiguousFits(r: Ring)
    requires r.Valid()
    ensures r.Start() + r.Contiguous() <= |r.mem|
  {
  }

  lemma PostLockedCases(c: Connection, data: seq<Byte>)
    requires c.ring.Valid()
    ensures PostLocked(c, data)
      == if |data| <= c.ring.Free() then
           (c.(ring := c.ring.Written(data), accepted := c.accepted + data), true)
         else
           (c.(ring := c.ring.Written(data)), false)
  {
  }

  lemma CopiedIsValid(r: Ring, t: Ring, data: seq<Byte>)
    requires r.Valid() && r.Switched() == r && |data| <= r.Free()
    requires t == r.(mem := r.mem[..r.WriteAt()] + data + r.mem[r.WriteAt() + |data|..])
    ensures t.Valid() && t.Switched() == t && t.Free() == r.Free() && t.WriteAt() == r.WriteAt()
    ensures t.Committed(|data|) == r.Appended(data)
  {
  }
}
