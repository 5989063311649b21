/**
 * Aggregated sends on one connection. Worker threads post bytes into the send buffer, remember the
 * session in their own request list, and later flush it; completions take sent bytes off the buffer.
 * Every lock-protected section and every access to the shared connected flag is one atomic step.
 */
module Sending {
  import opened Digits
  import opened Options
  import opened Circular
  import opened Counting

  /** An overlapped send: where the kernel reads, the bytes that were there, and the worker that dequeued its completion. */
  datatype Flight = Flight(start: nat, data: seq<Byte>, taken: Option<nat>)

  /** The shared state of one connection, with the history of bytes accepted and bytes sent. */
  datatype Connection = Connection(
    ring: Ring, connected: bool, pending: nat, flight: Option<Flight>,
    accepted: seq<Byte>, wire: seq<Byte>, allFull: bool)
  {
    function FlightLength(): nat {
      if flight.Some? then |flight.value.data| else 0
    }

    /** Bytes in the buffer that no send covers. */
    function Unsent(): int {
      ring.Stored() - FlightLength()
    }

    /** How many contiguous pieces the unsent bytes form: the rest of A, and B. */
    function Pieces(): nat {
      (if ring.aSize > FlightLength() then 1 else 0) + (if ring.bSize > 0 then 1 else 0)
    }
  }

  // The locked sections

  /** The section of PostSend under the buffer lock. */
  function PostLocked(c: Connection, data: seq<Byte>): (r: (Connection, bool))
    requires c.ring.Valid()
    ensures r.0.ring.Valid()
  {
    WrittenContents(c.ring, data);
    if |data| <= c.ring.Free() then
      (c.(ring := c.ring.Written(data), accepted := c.accepted + data), true)
    else
      (c.(ring := c.ring.Written(data)), false)
  }

  datatype FlushResult = Drop | Retry | SendError

  /** The section of FlushSend under the buffer lock; `accepts` is whether the kernel takes the send. */
  function FlushLocked(c: Connection, accepts: bool): (r: (Connection, FlushResult))
    requires c.ring.Valid()
    ensures r.0.ring == c.ring
  {
    if c.ring.Contiguous() == 0 then
      (c, if c.pending == 0 then Drop else Retry)
    else if c.pending > 0 then
      (c, Retry)
    else if !accepts then
      (c, SendError)
    else
      var start, len := c.ring.Start(), c.ring.Contiguous();
      (c.(pending := 1, flight := Some(Flight(start, c.ring.mem[start..start + len], None))), Drop)
  }

  /** SendCompletion: the bytes the kernel read are now on the wire. */
  function Completed(c: Connection, transferred: nat): (r: Connection)
    requires c.ring.Valid() && c.flight.Some? && c.pending > 0
    requires c.flight.value.start + transferred <= |c.ring.mem|
    ensures r.ring.Valid()
  {
    RemovedContents(c.ring, transferred);
    var f := c.flight.value;
    c.(
      ring := c.ring.Removed(transferred), pending := c.pending - 1, flight := None,
      wire := c.wire + c.ring.mem[f.start..f.start + transferred],
      allFull := c.allFull && transferred == |f.data|)
  }

  // The worker threads

  datatype Pc =
    | Waiting              // blocked on the completion port
    | Job                  // inside DoIocpJob
    | PostChecked(data: seq<Byte>)
    | Completing(transferred: nat)
    | MustClose            // about to call DisconnectRequest, then back to the job
    | SendLoop             // top of the loop of DoSendJob
    | FlushChecked         // FlushSend saw the session connected
    | FlushClosing         // FlushSend is about to call DisconnectRequest, then returns true
    | FlushDone            // FlushSend returned true: the entry is about to be popped

  /** A worker and how many entries for this session its request list holds. */
  datatype Worker = Worker(pc: Pc, entries: nat)

  datatype State = State(conn: Connection, workers: seq<Worker>)

  datatype Action =
    | Wake                               // a completion of some other kind
    | TakeCompletion(transferred: nat)   // the send completed with this many bytes
    | TakeFailure                        // the send failed or transferred nothing
    | Post(data: seq<Byte>)
    | Close
    | EndJob
    | Go(accepts: bool)                  // the next step of whatever the worker is in the middle of

  datatype Event = Event(worker: nat, action: Action)

  function With(s: State, t: nat, conn: Connection, w: Worker): State
    requires t < |s.workers|
  {
    State(conn, s.workers[t := w])
  }

  /** Taking completions off the port, and SendCompletion. */
  function CompletionStep(c: Connection, w: Worker, t: nat, action: Action): (r: (Connection, Worker))
    requires c.ring.Valid()
    ensures r.0.ring.Valid()
  {
    match (w.pc, action)
    case (Waiting, Wake) => (c, w.(pc := Job))
    case (Waiting, TakeCompletion(n)) =>
      if c.flight.Some? && c.flight.value.taken.None? && 0 < n <= |c.flight.value.data| then
        (c.(flight := Some(c.flight.value.(taken := Some(t)))), w.(pc := Completing(n)))
      else (c, w)
    case (Waiting, TakeFailure) =>
      if c.flight.Some? && c.flight.value.taken.None? then
        (c.(flight := None, allFull := false), w.(pc := MustClose))
      else (c, w)
    case (Completing(n), Go(_)) =>
      if c.flight.Some? && c.pending > 0 && c.flight.value.start + n <= |c.ring.mem| then
        (Completed(c, n), w.(pc := if n == |c.flight.value.data| then Job else MustClose))
      else (c, w)
    case _ => (c, w)
  }

  /** PostSend and DisconnectRequest inside a job. */
  function JobStep(c: Connection, w: Worker, action: Action): (r: (Connection, Worker))
    requires c.ring.Valid()
    ensures r.0.ring.Valid()
  {
    match (w.pc, action)
    case (Job, Post(data)) => if c.connected then (c, w.(pc := PostChecked(data))) else (c, w)
    case (PostChecked(data), Go(_)) =>
      var (c', ok) := PostLocked(c, data);
      (c', Worker(Job, if ok then w.entries + 1 else w.entries))
    case (Job, Close) => (c, w.(pc := MustClose))
    case (MustClose, Go(_)) => (c.(connected := false), w.(pc := Job))
    case (Job, EndJob) => (c, w.(pc := SendLoop))
    case _ => (c, w)
  }

  /** DoSendJob and FlushSend. */
  function SendStep(c: Connection, w: Worker, action: Action): (r: (Connection, Worker))
    requires c.ring.Valid()
    ensures r.0.ring.Valid()
  {
    match (w.pc, action)
    case (SendLoop, Go(_)) =>
      if w.entries == 0 then (c, w.(pc := Waiting))
      else (c, w.(pc := if c.connected then FlushChecked else FlushClosing))
    case (FlushChecked, Go(accepts)) =>
      var (c', result) := FlushLocked(c, accepts);
      (c', w.(pc := match result case Drop => FlushDone case Retry => SendLoop case SendError => FlushClosing))
    case (FlushClosing, Go(_)) => (c.(connected := false), w.(pc := FlushDone))
    case (FlushDone, Go(_)) => if w.entries > 0 then (c, Worker(SendLoop, w.entries - 1)) else (c, w)
    case _ => (c, w)
  }

  function Step(c: Connection, w: Worker, t: nat, action: Action): (r: (Connection, Worker))
    requires c.ring.Valid()
    ensures r.0.ring.Valid()
  {
    if w.pc.Waiting? || w.pc.Completing? then CompletionStep(c, w, t, action)
    else if w.pc.Job? || w.pc.PostChecked? || w.pc.MustClose? then JobStep(c, w, action)
    else SendStep(c, w, action)
  }

  /** One atomic step of worker `e.worker`; an event that is not possible now changes nothing. */
  function Do(s: State, e: Event): (r: State)
    requires s.conn.ring.Valid()
    ensures r.conn.ring.Valid() && |r.workers| == |s.workers|
  {
    if e.worker >= |s.workers| then
      s
    else
      var (c, w) := Step(s.conn, s.workers[e.worker], e.worker, e.action);
      With(s, e.worker, c, w)
  }

  /** Just accepted: nothing posted, all workers waiting; `mem` is what the empty buffer happens to hold. */
  function Init(mem: seq<Byte>, workers: nat): (s: State)
    ensures s.conn.ring.Valid()
  {
    State(
      Connection(Ring(mem, 0, 0, None, 0), true, 0, None, [], [], true),
      seq(workers, _ => Worker(Waiting, 0)))
  }

  /** The state after a run of events, oldest first. */
  function Exec(s: State, events: seq<Event>): (r: State)
    requires s.conn.ring.Valid()
    ensures r.conn.ring.Valid() && |r.workers| == |s.workers|
  {
    if events == [] then s else Do(Exec(s, events[..|events| - 1]), events[|events| - 1])
  }

  // The invariant

  /** Entries that will still be acted on: the one being popped no longer counts. */
  function LiveEntries(w: Worker): nat {
    if w.pc == FlushDone && w.entries > 0 then w.entries - 1 else w.entries
  }

  predicate WorkerInv(c: Connection, w: Worker, t: nat) {
    match w.pc
    case Waiting => w.entries == 0
    case Completing(n) => c.flight.Some? && c.flight.value.taken == Some(t) && 0 < n <= |c.flight.value.data|
    case FlushChecked => w.entries > 0
    case FlushClosing => w.entries > 0
    case FlushDone => w.entries > 0
    case _ => true
  }

  /** The bytes being sent are still the oldest bytes of region A, exactly as they were when the send was posted. */
  predicate FlightInv(c: Connection) {
    && c.pending <= 1
    && (c.flight.Some? ==>
      var f := c.flight.value;
      && c.pending == 1 && 0 < |f.data| <= c.ring.aSize
      && f.start == c.ring.a && f.start + |f.data| <= |c.ring.mem|
      && c.ring.mem[f.start..f.start + |f.data|] == f.data)
    && (c.pending == 1 && c.allFull ==> c.flight.Some?)
  }

  predicate Conserved(c: Connection)
    requires c.ring.Valid()
  {
    c.wire + c.ring.Contents() == c.accepted
  }

  predicate Covered(s: State) {
    s.conn.connected && s.conn.allFull ==> s.conn.Pieces() <= Sum(s.workers, LiveEntries)
  }

  predicate Inv(s: State) {
    && s.conn.ring.Valid()
    && FlightInv(s.conn)
    && Conserved(s.conn)
    && (forall t :: 0 <= t < |s.workers| ==> WorkerInv(s.conn, s.workers[t], t))
    && Covered(s)
  }

  // Each locked section keeps the invariant and accounts for the pieces it makes

  lemma PostKeeps(c: Connection, data: seq<Byte>)
    requires c.ring.Valid() && FlightInv(c) && Conserved(c)
    ensures var (c', ok) := PostLocked(c, data);
      && FlightInv(c') && Conserved(c')
      && c'.Pieces() <= c.Pieces() + (if ok then 1 else 0)
      && c'.flight == c.flight && c'.connected == c.connected && c'.allFull == c.allFull
  {
    hide Ring.Contents, Ring.Written, Ring.Valid, Ring.Free;
    WrittenContents(c.ring, data);
    WrittenKeepsA(c.ring, data);
    assert c.wire + (c.ring.Contents() + data) == (c.wire + c.ring.Contents()) + data;
    if c.flight.Some? {
      SliceOfSlice(c.ring.mem, c.ring.Written(data).mem, c.ring.a, c.ring.aSize, |c.flight.value.data|);
    }
  }

  lemma SliceOfSlice(x: seq<Byte>, y: seq<Byte>, at: nat, size: nat, len: nat)
    requires at + size <= |x| == |y| && len <= size
    requires x[at..at + size] == y[at..at + size]
    ensures x[at..at + len] == y[at..at + len]
  {
    assert x[at..at + len] == x[at..at + size][..len];
    assert y[at..at + len] == y[at..at + size][..len];
  }

  /** Writing never moves or changes what region A held. */
  lemma WrittenKeepsA(r: Ring, data: seq<Byte>)
    requires r.Valid()
    ensures var t := r.Written(data);
      && t.a == r.a && t.aSize >= r.aSize && |t.mem| == |r.mem|
      && t.mem[r.a..r.a + r.aSize] == r.mem[r.a..r.a + r.aSize]
      && (t.aSize == r.aSize || t.bSize == r.bSize)
      && (|data| > r.Free() ==> t.aSize == r.aSize && t.bSize == r.bSize)
  {
  }

  lemma FlushKeeps(c: Connection, accepts: bool)
    requires c.ring.Valid() && FlightInv(c) && Conserved(c)
    ensures var (c', result) := FlushLocked(c, accepts);
      && FlightInv(c') && Conserved(c')
      && c'.Pieces() <= c.Pieces()
      && (result == Drop && c.allFull ==> c'.Pieces() == 0 || c'.Pieces() + 1 <= c.Pieces())
      && c'.connected == c.connected && c'.allFull == c.allFull
      && (c'.flight == c.flight || c.flight.None?)
  {
  }

  lemma CompletedKeeps(c: Connection, transferred: nat)
    requires c.ring.Valid() && FlightInv(c) && Conserved(c)
    requires c.flight.Some? && transferred <= |c.flight.value.data|
    ensures var c' := Completed(c, transferred);
      && FlightInv(c') && Conserved(c')
      && (c'.allFull ==> c'.Pieces() <= c.Pieces())
      && c'.connected == c.connected && (c'.allFull ==> c.allFull)
  {
    hide Ring.Contents, Ring.Removed, Ring.Valid;
    RemovedContents(c.ring, transferred);
    RemovedPieces(c.ring, transferred);
    var f := c.flight.value;
    FrontOfA(c.ring, transferred);
    var sent, rest := c.ring.mem[f.start..f.start + transferred], c.ring.Contents()[transferred..];
    assert c.ring.Contents() == sent + rest;
    assert c.wire + (sent + rest) == (c.wire + sent) + rest;
  }

  lemma FrontOfA(r: Ring, n: nat)
    requires r.Valid() && n <= r.aSize
    ensures r.Contents()[..n] == r.mem[r.a..r.a + n]
    ensures |r.Contents()| == r.Stored()
  {
  }

  /** Taking a whole piece off the front leaves the other pieces as they were. */
  lemma RemovedPieces(r: Ring, n: nat)
    requires r.Valid() && n <= r.aSize
    ensures var t := r.Removed(n);
      (if t.aSize > 0 then 1 else 0) + (if t.bSize > 0 then 1 else 0)
      == (if r.aSize > n then 1 else 0) + (if r.bSize > 0 then 1 else 0)
  {
  }

  /** What any step of worker `t` must show: the connection stays good and no other worker loses its completion. */
  predicate StepOk(c: Connection, w: Worker, c': Connection, w': Worker, t: nat) {
    && c'.ring.Valid() && FlightInv(c') && Conserved(c') && WorkerInv(c', w', t)
    && (c'.flight == c.flight || c.flight.None? || c.flight.value.taken in {None, Some(t)})
    && (c'.connected && c'.allFull ==> c.connected && c.allFull)
    && (c'.connected && c'.allFull ==>
      c'.Pieces() == 0 || c'.Pieces() + LiveEntries(w) <= c.Pieces() + LiveEntries(w'))
  }

  lemma StepKeeps(s: State, t: nat, c: Connection, w: Worker)
    requires Inv(s) && t < |s.workers| && StepOk(s.conn, s.workers[t], c, w, t)
    ensures Inv(With(s, t, c, w))
  {
    hide Ring.Valid, FlightInv, Conserved, Connection.Pieces, LiveEntries;
    SumUpdate(s.workers, LiveEntries, t, w);
    var ws := s.workers[t := w];
    forall u | 0 <= u < |ws|
      ensures WorkerInv(c, ws[u], u)
    {
      assert u != t ==> WorkerInv(s.conn, s.workers[u], u);
    }
  }

  lemma CompletionStepOk(c: Connection, w: Worker, t: nat, action: Action)
    requires c.ring.Valid() && FlightInv(c) && Conserved(c) && WorkerInv(c, w, t)
    requires w.pc.Waiting? || w.pc.Completing?
    ensures var (c', w') := CompletionStep(c, w, t, action); StepOk(c, w, c', w', t)
  {
    hide Ring.Valid, Ring.Contents, Completed;
    if w.pc.Completing? && action.Go? {
      CompletedKeeps(c, w.pc.transferred);
    }
  }

  lemma JobStepOk(c: Connection, w: Worker, t: nat, action: Action)
    requires c.ring.Valid() && FlightInv(c) && Conserved(c) && WorkerInv(c, w, t)
    requires w.pc.Job? || w.pc.PostChecked? || w.pc.MustClose?
    ensures var (c', w') := JobStep(c, w, action); StepOk(c, w, c', w', t)
  {
    hide Ring.Valid, Ring.Contents, PostLocked;
    if w.pc.PostChecked? {
      PostKeeps(c, w.pc.data);
    }
  }

  lemma SendStepOk(c: Connection, w: Worker, t: nat, action: Action)
    requires c.ring.Valid() && FlightInv(c) && Conserved(c) && WorkerInv(c, w, t)
    requires w.pc.SendLoop? || w.pc.FlushChecked? || w.pc.FlushClosing? || w.pc.FlushDone?
    ensures var (c', w') := SendStep(c, w, action); StepOk(c, w, c', w', t)
  {
    hide Ring.Valid, Ring.Contents, FlushLocked;
    if w.pc.FlushChecked? && action.Go? {
      FlushKeeps(c, action.accepts);
    }
  }

  lemma InvStep(s: State, e: Event)
    requires Inv(s)
    ensures Inv(Do(s, e))
  {
    hide Ring.Valid, FlightInv, Conserved, WorkerInv, StepOk, CompletionStep, JobStep, SendStep;
    if e.worker < |s.workers| {
      var (t, c, w) := (e.worker, s.conn, s.workers[e.worker]);
      assert WorkerInv(c, w, t);
      if w.pc.Waiting? || w.pc.Completing? {
        CompletionStepOk(c, w, t, e.action);
      } else if w.pc.Job? || w.pc.PostChecked? || w.pc.MustClose? {
        JobStepOk(c, w, t, e.action);
      } else {
        SendStepOk(c, w, t, e.action);
      }
      var (c', w') := Step(c, w, t, e.action);
      StepKeeps(s, t, c', w');
    }
  }

  lemma InitInv(mem: seq<Byte>, workers: nat)
    ensures Inv(Init(mem, workers))
  {
  }

  /** The invariant holds after every run. */
  lemma {:induction false} AlwaysInv(mem: seq<Byte>, workers: nat, events: seq<Event>)
    ensures Inv(Exec(Init(mem, workers), events))
  {
    if events == [] {
      InitInv(mem, workers);
    } else {
      AlwaysInv(mem, workers, events[..|events| - 1]);
      InvStep(Exec(Init(mem, workers), events[..|events| - 1]), events[|events| - 1]);
    }
  }

  // Main results: after every run of every number of workers

  /**
   * No lost wakeup. While the session is connected and its sends have completed in full, bytes that no
   * send covers are remembered by a worker that is not waiting on the port and has an entry left to act on.
   */
  lemma NoLostWakeup(mem: seq<Byte>, workers: nat, events: seq<Event>)
    ensures var s := Exec(Init(mem, workers), events);
      s.conn.connected && s.conn.allFull && s.conn.Unsent() > 0 ==>
        exists t :: 0 <= t < |s.workers| && LiveEntries(s.workers[t]) > 0 && s.workers[t].pc != Waiting
  {
    AlwaysInv(mem, workers, events);
    var s := Exec(Init(mem, workers), events);
    if s.conn.connected && s.conn.allFull && s.conn.Unsent() > 0 {
      assert s.conn.Pieces() > 0;
      var t := SumWitness(s.workers, LiveEntries);
      assert WorkerInv(s.conn, s.workers[t], t);
    }
  }

  /** Order and conservation: what is on the wire, then what is buffered, is what PostSend accepted. */
  lemma SendOrder(mem: seq<Byte>, workers: nat, events: seq<Event>)
    ensures var c := Exec(Init(mem, workers), events).conn;
      && c.wire + c.ring.Contents() == c.accepted
      && c.pending <= 1
      && (c.flight.Some? ==> c.pending == 1 && c.flight.value.data <= c.ring.Contents())
  {
    AlwaysInv(mem, workers, events);
    var c := Exec(Init(mem, workers), events).conn;
    if c.flight.Some? {
      FrontOfA(c.ring, |c.flight.value.data|);
    }
  }

  /** No step moves or changes the bytes of a send that is still in flight after it. */
  lemma InFlightStable(mem: seq<Byte>, workers: nat, events: seq<Event>, e: Event)
    ensures var c := Exec(Init(mem, workers), events).conn;
      var c' := Exec(Init(mem, workers), events + [e]).conn;
      c.flight.Some? && c'.flight.Some? ==>
        var (f, f') := (c.flight.value, c'.flight.value);
        && f'.start == f.start && f'.data == f.data && f.start + |f.data| <= |c.ring.mem| == |c'.ring.mem|
        && c'.ring.mem[f.start..f.start + |f.data|] == c.ring.mem[f.start..f.start + |f.data|] == f.data
  {
    hide Step, Ring.Contents, Ring.Valid, Conserved, Covered;
    AlwaysInv(mem, workers, events);
    AlwaysInv(mem, workers, events + [e]);
    var s := Exec(Init(mem, workers), events);
    assert (events + [e])[..|events|] == events;
    if e.worker < |s.workers| {
      FlightKept(s.conn, s.workers[e.worker], e.worker, e.action);
    }
  }

  lemma FlightKept(c: Connection, w: Worker, t: nat, action: Action)
    requires c.ring.Valid() && FlightInv(c)
    ensures var c' := Step(c, w, t, action).0;
      && |c'.ring.mem| == |c.ring.mem|
      && (c.flight.Some? && c'.flight.Some? ==>
        c'.flight.value.start == c.flight.value.start && c'.flight.value.data == c.flight.value.data)
  {
    hide Ring.Valid, Ring.Contents, Ring.Written, Ring.Removed;
    if w.pc.PostChecked? {
      WrittenContents(c.ring, w.pc.data);
    } else if w.pc.Completing? {
      RemovedContents(c.ring, w.pc.transferred);
    }
  }
}
