/**
 * When the send protocol stops: DoSendJob keeps a worker off the completion port until its list is empty,
 * so all workers can end up waiting there for a completion that none of them will take.
 */
module SendProgress {
  import opened Digits
  import opened Options
  import opened Circular
  import opened Sending

  /** A worker that stays inside DoSendJob as long as FlushSend keeps refusing. */
  predicate StuckPhase(w: Worker) {
    (w.pc in {SendLoop, FlushChecked} && w.entries > 0) || (w.pc == FlushDone && w.entries > 1)
  }

  /** Connected, with a send pending and bytes to send, so that FlushSend refuses, and every worker flushing. */
  predicate Stuck(s: State) {
    && s.conn.connected && s.conn.pending > 0 && s.conn.ring.Contiguous() > 0
    && forall t :: 0 <= t < |s.workers| ==> StuckPhase(s.workers[t])
  }

  // A stuck connection never changes again

  lemma StuckStep(s: State, e: Event)
    requires s.conn.ring.Valid() && Stuck(s)
    ensures Stuck(Do(s, e)) && Do(s, e).conn == s.conn
  {
    if e.worker < |s.workers| {
      assert StuckPhase(s.workers[e.worker]);
    }
  }

  lemma {:induction false} StuckForever(s: State, more: seq<Event>)
    requires s.conn.ring.Valid() && Stuck(s)
    ensures Stuck(Exec(s, more)) && Exec(s, more).conn == s.conn
  {
    hide Stuck, Do;
    if more != [] {
      StuckForever(s, more[..|more| - 1]);
      StuckStep(Exec(s, more[..|more| - 1]), more[|more| - 1]);
    }
  }

  lemma {:induction false} NobodyForever(s: State, more: seq<Event>)
    requires s.conn.ring.Valid() && |s.workers| == 0
    ensures Exec(s, more) == s
  {
    if more != [] {
      NobodyForever(s, more[..|more| - 1]);
    }
  }

  // Any other connected state can still change

  /** However the run goes on, the connection stays as it is. */
  ghost predicate Frozen(s: State)
    requires s.conn.ring.Valid()
  {
    forall more :: Exec(s, more).conn == s.conn
  }

  /** Running on: a run cut in two. */
  lemma {:induction false} ExecMore(s: State, first: seq<Event>, second: seq<Event>)
    requires s.conn.ring.Valid()
    ensures Exec(s, first + second) == Exec(Exec(s, first), second)
  {
    if second == [] {
      assert first + second == first;
    } else {
      ExecMore(s, first, second[..|second| - 1]);
      assert (first + second)[..|first + second| - 1] == first + second[..|second| - 1];
    }
  }

  lemma ExecOne(s: State, e: Event)
    requires s.conn.ring.Valid()
    ensures Exec(s, [e]) == Do(s, e)
  {
    hide Do;
    assert [e][..0] == [];
    assert Exec(s, []) == s;
  }

  /** One step changes the connection, or leads to a state from which it can change. */
  lemma OneStepOn(s: State, e: Event)
    requires s.conn.ring.Valid()
    requires Do(s, e).conn != s.conn || !Frozen(Do(s, e))
    ensures !Frozen(s)
  {
    hide Do, Exec;
    ExecOne(s, e);
    var s' := Do(s, e);
    if s'.conn == s.conn {
      var more :| Exec(s', more).conn != s'.conn;
      ExecMore(s, [e], more);
    } else {
      assert Exec(s, [e]).conn != s.conn;
    }
  }

  /** What the worker does next to get out of DoSendJob or to close the connection. */
  function WayOut(w: Worker): Action {
    match w.pc
    case Waiting => Wake
    case Job => Close
    case _ => Go(true)
  }

  /** Entries still to be flushed, then steps to the port, to a job and to DisconnectRequest. */
  function EntriesLeft(w: Worker): nat {
    if w.pc in {SendLoop, FlushChecked, FlushDone} then w.entries + 1 else 0
  }

  function StepsLeft(w: Worker): nat {
    match w.pc
    case SendLoop => 3
    case FlushChecked => 2
    case FlushDone => 1
    case Waiting => 3
    case PostChecked(_) => 3
    case Job => 2
    case _ => 1
  }

  /** A worker that FlushSend would not refuse, or that is not flushing at all, can change the connection by itself. */
  lemma {:induction false} WayOutWorks(s: State, t: nat)
    requires Inv(s) && t < |s.workers| && s.conn.connected
    requires s.conn.pending == 0 || !StuckPhase(s.workers[t])
    ensures !Frozen(s)
    decreases EntriesLeft(s.workers[t]), StepsLeft(s.workers[t])
  {
    hide Frozen;
    var w := s.workers[t];
    var e := Event(t, WayOut(w));
    var s' := Do(s, e);
    assert WorkerInv(s.conn, w, t);
    InvStep(s, e);
    if s'.conn == s.conn {
      WayOutGoesOn(s.conn, w, t);
      WayOutWorks(s', t);
    }
    OneStepOn(s, e);
  }

  /** Each step of the way out changes the connection or comes nearer to doing so. */
  lemma WayOutGoesOn(c: Connection, w: Worker, t: nat)
    requires c.ring.Valid() && FlightInv(c) && WorkerInv(c, w, t) && c.connected && (c.pending == 0 || !StuckPhase(w))
    ensures var (c', w') := Step(c, w, t, WayOut(w));
      c' == c ==>
        && (c.pending == 0 || !StuckPhase(w'))
        && (EntriesLeft(w') < EntriesLeft(w) || (EntriesLeft(w') == EntriesLeft(w) && StepsLeft(w') < StepsLeft(w)))
  {
    hide Ring.Valid, Ring.Contents, PostLocked;
  }

  /** While the session is connected, a send that failed or fell short has left some worker about to close it. */
  predicate Attended(s: State) {
    s.conn.connected && !s.conn.allFull ==> exists t :: 0 <= t < |s.workers| && s.workers[t].pc == MustClose
  }

  lemma AttendedStep(s: State, e: Event)
    requires Inv(s) && Attended(s)
    ensures Attended(Do(s, e))
  {
    hide Ring.Valid, Ring.Contents, Ring.Written, Ring.Removed;
    var s' := Do(s, e);
    if e.worker < |s.workers| && s'.conn.connected && !s'.conn.allFull {
      assert WorkerInv(s.conn, s.workers[e.worker], e.worker);
      if s.conn.connected && !s.conn.allFull {
        var t :| 0 <= t < |s.workers| && s.workers[t].pc == MustClose;
        assert s'.workers[t].pc == MustClose;
      } else {
        assert s'.workers[e.worker].pc == MustClose;
      }
    }
  }

  lemma {:induction false} AlwaysAttended(mem: seq<Byte>, workers: nat, events: seq<Event>)
    ensures Attended(Exec(Init(mem, workers), events))
  {
    hide Inv, Do;
    if events != [] {
      var front := events[..|events| - 1];
      AlwaysInv(mem, workers, front);
      AlwaysAttended(mem, workers, front);
      AttendedStep(Exec(Init(mem, workers), front), events[|events| - 1]);
    }
  }

  /** A step that shows a send to have failed or to have transferred less than it covered. */
  predicate ShortStep(s: State, e: Event) {
    && e.worker < |s.workers| && s.conn.flight.Some?
    && var (w, f) := (s.workers[e.worker], s.conn.flight.value);
      || (w.pc == Waiting && e.action == TakeFailure && f.taken.None?)
      || (w.pc.Completing? && e.action.Go? && w.pc.transferred < |f.data|)
  }

  /** Some send of the run failed or fell short. */
  function SentShort(mem: seq<Byte>, workers: nat, events: seq<Event>): bool {
    if events == [] then false
    else
      var (front, last) := (events[..|events| - 1], events[|events| - 1]);
      SentShort(mem, workers, front) || ShortStep(Exec(Init(mem, workers), front), last)
  }

  lemma FullStep(s: State, e: Event)
    requires Inv(s)
    ensures Do(s, e).conn.allFull <==> s.conn.allFull && !ShortStep(s, e)
  {
    hide Ring.Valid, Ring.Contents, Ring.Written, Ring.Removed;
    if e.worker < |s.workers| {
      assert WorkerInv(s.conn, s.workers[e.worker], e.worker);
    }
  }

  lemma {:induction false} FullExactly(mem: seq<Byte>, workers: nat, events: seq<Event>)
    ensures Exec(Init(mem, workers), events).conn.allFull <==> !SentShort(mem, workers, events)
  {
    hide Inv, Do, ShortStep;
    if events != [] {
      var front := events[..|events| - 1];
      AlwaysInv(mem, workers, front);
      FullExactly(mem, workers, front);
      FullStep(Exec(Init(mem, workers), front), events[|events| - 1]);
    }
  }

  /** A short or failed send closes the connection: after every run with one, some worker is about to, or it is closed. */
  lemma ShortSendCloses(mem: seq<Byte>, workers: nat, events: seq<Event>)
    requires SentShort(mem, workers, events)
    ensures var s := Exec(Init(mem, workers), events);
      !s.conn.connected || exists t :: 0 <= t < |s.workers| && s.workers[t].pc == MustClose
  {
    hide Exec, Init, SentShort;
    FullExactly(mem, workers, events);
    AlwaysAttended(mem, workers, events);
  }

  lemma OtherwiseCanChange(s: State)
    requires Inv(s) && Attended(s) && s.conn.connected && |s.workers| > 0 && !Stuck(s)
    ensures !Frozen(s)
  {
    hide Frozen, Ring.Valid, Covered, Conserved;
    if t :| 0 <= t < |s.workers| && !StuckPhase(s.workers[t]) {
      WayOutWorks(s, t);
    } else {
      assert forall t :: 0 <= t < |s.workers| ==> StuckPhase(s.workers[t]);
      assert s.conn.pending == 0;
      WayOutWorks(s, 0);
    }
  }

  lemma ProgressAt(s: State)
    requires Inv(s) && s.conn.ring.Valid() && Attended(s) && s.conn.connected
    ensures Frozen(s) <==> |s.workers| == 0 || Stuck(s)
  {
    hide Inv, Attended, Stuck, Exec, Ring.Valid;
    if |s.workers| == 0 {
      forall more
        ensures Exec(s, more).conn == s.conn
      {
        NobodyForever(s, more);
      }
    } else if Stuck(s) {
      forall more
        ensures Exec(s, more).conn == s.conn
      {
        StuckForever(s, more);
      }
    } else {
      OtherwiseCanChange(s);
    }
  }

  /**
   * Exactly when nothing happens any more: after every run that ends connected, the connection can never
   * change again if and only if there is no worker or the state is stuck.
   */
  lemma ProgressExactly(mem: seq<Byte>, workers: nat, events: seq<Event>)
    requires Exec(Init(mem, workers), events).conn.connected
    ensures var s := Exec(Init(mem, workers), events);
      Frozen(s) <==> workers == 0 || Stuck(s)
  {
    hide Inv, Attended, Stuck, Exec, Ring.Valid;
    AlwaysInv(mem, workers, events);
    AlwaysAttended(mem, workers, events);
    ProgressAt(Exec(Init(mem, workers), events));
  }

  // Every configuration can get stuck

  /** An empty post is accepted and leaves a list entry behind; it changes nothing else while the buffer has not wrapped. */
  lemma EmptyPost(c: Connection)
    requires c.ring.Valid() && c.ring.a == 0 && c.ring.b.None?
    ensures PostLocked(c, []) == (c, true)
  {
    assert c.ring.mem[..c.ring.WriteAt()] + [] + c.ring.mem[c.ring.WriteAt() + 0..] == c.ring.mem;
    assert c.accepted + [] == c.accepted;
  }

  /** Worker `t` takes its next step alone. */
  lemma StepAlone(s: State, events: seq<Event>, c: Connection, ws: seq<Worker>, t: nat, action: Action)
    requires s.conn.ring.Valid() && c.ring.Valid() && Exec(s, events) == State(c, ws) && t < |ws|
    ensures var (c', w') := Step(c, ws[t], t, action);
      Exec(s, events + [Event(t, action)]) == State(c', ws[t := w'])
  {
    hide Step, Ring.Valid, Exec;
    ExecNext(s, events, Event(t, action));
  }

  lemma ExecNext(s: State, events: seq<Event>, e: Event)
    requires s.conn.ring.Valid()
    ensures Exec(s, events + [e]) == Do(Exec(s, events), e)
  {
    hide Do, Ring.Valid;
    assert (events + [e])[..|events|] == events;
  }

  /** A worker waiting on the port wakes, posts nothing, and goes to flush while the send is pending. */
  lemma WorkerJoins(s: State, events: seq<Event>, c: Connection, ws: seq<Worker>, t: nat) returns (more: seq<Event>)
    requires s.conn.ring.Valid() && c.ring.Valid() && Exec(s, events) == State(c, ws)
    requires t < |ws| && ws[t] == Worker(Waiting, 0) && c.connected && PostLocked(c, []) == (c, true)
    ensures Exec(s, more) == State(c, ws[t := Worker(SendLoop, 1)])
  {
    hide Exec, Do, PostLocked, Ring.Valid;
    var w1, w2, w3 := Worker(Job, 0), Worker(PostChecked([]), 0), Worker(Job, 1);
    StepAlone(s, events, c, ws, t, Wake);
    more := events + [Event(t, Wake)];
    StepAlone(s, more, c, ws[t := w1], t, Post([]));
    more := more + [Event(t, Post([]))];
    assert ws[t := w1][t := w2] == ws[t := w2];
    StepAlone(s, more, c, ws[t := w2], t, Go(true));
    more := more + [Event(t, Go(true))];
    assert ws[t := w2][t := w3] == ws[t := w3];
    StepAlone(s, more, c, ws[t := w3], t, EndJob);
    more := more + [Event(t, EndJob)];
    assert ws[t := w3][t := Worker(SendLoop, 1)] == ws[t := Worker(SendLoop, 1)];
  }

  /** The first worker posts a byte and nothing, and flushes once: it comes back for its second entry. */
  lemma FirstWorkerSends(mem: seq<Byte>, workers: nat) returns (events: seq<Event>, c: Connection)
    requires |mem| >= 1 && workers >= 1
    ensures c.ring.Valid() && Exec(Init(mem, workers), events) == State(c, Init(mem, workers).workers[0 := Worker(SendLoop, 1)])
    ensures c.connected && c.pending > 0 && c.ring.Contiguous() > 0 && PostLocked(c, []) == (c, true)
  {
    var s := Init(mem, workers);
    var (c0, ws, g) := (s.conn, s.workers, Go(true));
    var c1 := PostLocked(c0, [1]).0;
    FirstByte(c0);
    EmptyPost(c1);
    c := FlushLocked(c1, true).0;
    EmptyPost(c);
    FirstSteps(c0);
    hide Exec, Do, Step, Init, PostLocked, FlushLocked, Ring.Valid, Ring.Contiguous;
    NothingDone(s);
    StepAlone(s, [], c0, ws, 0, Wake);
    events := [] + [Event(0, Wake)];
    events := NextStep(s, events, c0, ws, Worker(Job, 0), Post([1]));
    events := NextStep(s, events, c0, ws, Worker(PostChecked([1]), 0), g);
    events := NextStep(s, events, c1, ws, Worker(Job, 1), Post([]));
    events := NextStep(s, events, c1, ws, Worker(PostChecked([]), 1), g);
    events := NextStep(s, events, c1, ws, Worker(Job, 2), EndJob);
    events := NextStep(s, events, c1, ws, Worker(SendLoop, 2), g);
    events := NextStep(s, events, c1, ws, Worker(FlushChecked, 2), g);
    events := NextStep(s, events, c, ws, Worker(FlushDone, 2), g);
  }

  /** The steps of the first worker, one after the other. */
  lemma FirstSteps(c: Connection)
    requires c.ring.Valid() && c.ring.a == c.ring.aSize == 0 && c.ring.b.None? && |c.ring.mem| >= 1
    requires c.connected && c.pending == 0
    ensures var (g, c1) := (Go(true), PostLocked(c, [1]).0);
      && Step(c, Worker(Waiting, 0), 0, Wake) == (c, Worker(Job, 0))
      && Step(c, Worker(Job, 0), 0, Post([1])) == (c, Worker(PostChecked([1]), 0))
      && Step(c, Worker(PostChecked([1]), 0), 0, g) == (c1, Worker(Job, 1))
      && Step(c1, Worker(Job, 1), 0, Post([])) == (c1, Worker(PostChecked([]), 1))
      && Step(c1, Worker(PostChecked([]), 1), 0, g) == (c1, Worker(Job, 2))
      && Step(c1, Worker(Job, 2), 0, EndJob) == (c1, Worker(SendLoop, 2))
      && Step(c1, Worker(SendLoop, 2), 0, g) == (c1, Worker(FlushChecked, 2))
      && Step(c1, Worker(FlushChecked, 2), 0, g) == (FlushLocked(c1, true).0, Worker(FlushDone, 2))
      && Step(FlushLocked(c1, true).0, Worker(FlushDone, 2), 0, g) == (FlushLocked(c1, true).0, Worker(SendLoop, 1))
  {
    FirstByte(c);
    EmptyPost(PostLocked(c, [1]).0);
    hide PostLocked, Ring.Valid;
  }

  lemma NothingDone(s: State)
    requires s.conn.ring.Valid()
    ensures Exec(s, []) == s
  {
  }

  lemma NextStep(s: State, events: seq<Event>, c: Connection, ws: seq<Worker>, w: Worker, action: Action) returns (more: seq<Event>)
    requires s.conn.ring.Valid() && c.ring.Valid() && ws != [] && Exec(s, events) == State(c, ws[0 := w])
    ensures var (c', w') := Step(c, w, 0, action); Exec(s, more) == State(c', ws[0 := w'])
  {
    hide Exec, Step, Ring.Valid;
    StepAlone(s, events, c, ws[0 := w], 0, action);
    more := events + [Event(0, action)];
    assert ws[0 := w][0 := Step(c, w, 0, action).1] == ws[0 := Step(c, w, 0, action).1];
  }

  lemma FirstByte(c: Connection)
    requires c.ring.Valid() && c.ring.a == c.ring.aSize == 0 && c.ring.b.None? && |c.ring.mem| >= 1
    ensures var (c', ok) := PostLocked(c, [1]);
      && ok && c'.ring.a == 0 && c'.ring.aSize == 1 && c'.ring.b.None? && |c'.ring.mem| == |c.ring.mem|
      && c'.connected == c.connected && c'.pending == c.pending
  {
  }

  /** The other workers join one by one. */
  lemma {:induction false} WorkersJoin(mem: seq<Byte>, workers: nat, n: nat) returns (events: seq<Event>, c: Connection)
    requires |mem| >= 1 && 1 <= n <= workers
    ensures c.ring.Valid() && c.connected && c.pending > 0 && c.ring.Contiguous() > 0 && PostLocked(c, []) == (c, true)
    ensures var s := Exec(Init(mem, workers), events);
      && s.conn == c && |s.workers| == workers
      && forall t :: 0 <= t < workers ==> s.workers[t] == if t < n then Worker(SendLoop, 1) else Worker(Waiting, 0)
  {
    hide Exec, PostLocked, Ring.Valid, Ring.Contiguous;
    if n == 1 {
      events, c := FirstWorkerSends(mem, workers);
    } else {
      events, c := WorkersJoin(mem, workers, n - 1);
      var s := Exec(Init(mem, workers), events);
      events := WorkerJoins(Init(mem, workers), events, c, s.workers, n - 1);
    }
  }

  /** Without room for a byte there is never anything to send. */
  lemma NothingToSend(mem: seq<Byte>, workers: nat, events: seq<Event>)
    ensures |Exec(Init(mem, workers), events).conn.ring.mem| == |mem|
    ensures workers == 0 ==> Exec(Init(mem, workers), events).conn.pending == 0
  {
    SameCapacity(Init(mem, workers), events);
    if workers == 0 {
      NobodyForever(Init(mem, workers), events);
    }
  }

  lemma {:induction false} SameCapacity(s: State, events: seq<Event>)
    requires s.conn.ring.Valid()
    ensures |Exec(s, events).conn.ring.mem| == |s.conn.ring.mem|
  {
    hide Do, Ring.Valid;
    if events != [] {
      SameCapacity(s, events[..|events| - 1]);
      SameCapacityStep(Exec(s, events[..|events| - 1]), events[|events| - 1]);
    }
  }

  lemma SameCapacityStep(s: State, e: Event)
    requires s.conn.ring.Valid()
    ensures |Do(s, e).conn.ring.mem| == |s.conn.ring.mem|
  {
    hide Ring.Valid, Ring.Contents, Ring.Written, Ring.Removed;
    if e.worker < |s.workers| {
      var w := s.workers[e.worker];
      if w.pc.PostChecked? {
        WrittenContents(s.conn.ring, w.pc.data);
      } else if w.pc.Completing? {
        RemovedContents(s.conn.ring, w.pc.transferred);
      }
    }
  }

  /** The protocol can get stuck exactly if there is a worker and room for a byte. */
  lemma StuckReachable(mem: seq<Byte>, workers: nat)
    ensures (exists events :: Stuck(Exec(Init(mem, workers), events))) <==> |mem| >= 1 && workers >= 1
  {
    hide Exec, Init, Ring.Valid;
    if |mem| >= 1 && workers >= 1 {
      var events, c := WorkersJoin(mem, workers, workers);
      assert Stuck(Exec(Init(mem, workers), events));
    } else {
      forall events
        ensures !Stuck(Exec(Init(mem, workers), events))
      {
        NothingToSend(mem, workers, events);
        FitsCapacity(Exec(Init(mem, workers), events).conn.ring);
      }
    }
  }

  lemma FitsCapacity(r: Ring)
    requires r.Valid()
    ensures r.Contiguous() <= |r.mem|
  {
  }

  // What one call of FlushSend or PostSend does, after any run

  /** One more step of worker `t`. */
  lemma OneMore(s: State, events: seq<Event>, c: Connection, ws: seq<Worker>, t: nat, w: Worker, action: Action)
    requires s.conn.ring.Valid() && c.ring.Valid() && t < |ws| && Exec(s, events) == State(c, ws[t := w])
    ensures var (c', w') := Step(c, w, t, action); Exec(s, events + [Event(t, action)]) == State(c', ws[t := w'])
  {
    hide Exec, Step, Ring.Valid;
    StepAlone(s, events, c, ws[t := w], t, action);
    assert ws[t := w][t := Step(c, w, t, action).1] == ws[t := Step(c, w, t, action).1];
  }

  /** A worker at the top of DoSendJob with an entry for the session. */
  predicate Flushing(s: State, t: nat) {
    t < |s.workers| && s.workers[t].pc == SendLoop && s.workers[t].entries > 0
  }

  /** The worker back at the top of DoSendJob. */
  function BackAtTop(s: State, t: nat, conn: Connection, entries: nat): State
    requires t < |s.workers|
  {
    State(conn, s.workers[t := Worker(SendLoop, entries)])
  }

  lemma DropSteps(c: Connection, n: nat, t: nat)
    requires c.ring.Valid() && n > 0 && (!c.connected || (c.ring.Stored() == 0 && c.pending == 0))
    ensures var (g, p) := (Go(true), if c.connected then FlushChecked else FlushClosing);
      && Step(c, Worker(SendLoop, n), t, g) == (c, Worker(p, n))
      && Step(c, Worker(p, n), t, g) == (c, Worker(FlushDone, n))
      && Step(c, Worker(FlushDone, n), t, g) == (c, Worker(SendLoop, n - 1))
  {
    assert c.connected || c.(connected := false) == c;
  }

  lemma WaitSteps(c: Connection, n: nat, t: nat)
    requires c.ring.Valid() && n > 0 && c.connected && c.pending > 0
    ensures Step(c, Worker(SendLoop, n), t, Go(true)) == (c, Worker(FlushChecked, n))
    ensures Step(c, Worker(FlushChecked, n), t, Go(true)) == (c, Worker(SendLoop, n))
  {
  }

  lemma SendSteps(c: Connection, n: nat, t: nat)
    requires c.ring.Valid() && n > 0 && c.connected && c.pending == 0 && c.ring.Stored() > 0
    ensures var (g, c') := (Go(true), FlushLocked(c, true).0);
      && Step(c, Worker(SendLoop, n), t, g) == (c, Worker(FlushChecked, n))
      && Step(c, Worker(FlushChecked, n), t, g) == (c', Worker(FlushDone, n))
      && Step(c', Worker(FlushDone, n), t, g) == (c', Worker(SendLoop, n - 1))
    ensures var (g, c') := (Go(true), c.(connected := false));
      && Step(c, Worker(FlushChecked, n), t, Go(false)) == (c, Worker(FlushClosing, n))
      && Step(c, Worker(FlushClosing, n), t, g) == (c', Worker(FlushDone, n))
      && Step(c', Worker(FlushDone, n), t, g) == (c', Worker(SendLoop, n - 1))
  {
  }

  /** After every run: a disconnected session is dropped from the list, and so is one with nothing to send and nothing pending. */
  lemma FlushDrops(mem: seq<Byte>, workers: nat, events: seq<Event>, t: nat)
    requires var s := Exec(Init(mem, workers), events);
      Flushing(s, t) && (!s.conn.connected || (s.conn.ring.Stored() == 0 && s.conn.pending == 0))
    ensures var (s, go) := (Exec(Init(mem, workers), events), [Event(t, Go(true))]);
      Exec(Init(mem, workers), events + go + go + go) == BackAtTop(s, t, s.conn, s.workers[t].entries - 1)
  {
    var s := Exec(Init(mem, workers), events);
    var (g, go, n) := (Go(true), [Event(t, Go(true))], s.workers[t].entries);
    var p := if s.conn.connected then FlushChecked else FlushClosing;
    hide Exec, Init, Step, Ring.Valid;
    DropSteps(s.conn, n, t);
    assert s.workers[t := Worker(SendLoop, n)] == s.workers;
    OneMore(Init(mem, workers), events, s.conn, s.workers, t, Worker(SendLoop, n), g);
    OneMore(Init(mem, workers), events + go, s.conn, s.workers, t, Worker(p, n), g);
    OneMore(Init(mem, workers), events + go + go, s.conn, s.workers, t, Worker(FlushDone, n), g);
  }

  /** After every run: while a send is pending on a connected session the entry stays and nothing changes. */
  lemma FlushWaits(mem: seq<Byte>, workers: nat, events: seq<Event>, t: nat)
    requires var s := Exec(Init(mem, workers), events); Flushing(s, t) && s.conn.connected && s.conn.pending > 0
    ensures var (s, go) := (Exec(Init(mem, workers), events), [Event(t, Go(true))]);
      Exec(Init(mem, workers), events + go + go) == s
  {
    var s := Exec(Init(mem, workers), events);
    var (g, go, n) := (Go(true), [Event(t, Go(true))], s.workers[t].entries);
    hide Exec, Init, Step, Ring.Valid;
    WaitSteps(s.conn, n, t);
    assert s.workers[t := Worker(SendLoop, n)] == s.workers;
    OneMore(Init(mem, workers), events, s.conn, s.workers, t, Worker(SendLoop, n), g);
    OneMore(Init(mem, workers), events + go, s.conn, s.workers, t, Worker(FlushChecked, n), g);
  }

  /** After every run: with bytes to send and none pending, an accepted send takes the whole oldest region into flight. */
  lemma FlushSends(mem: seq<Byte>, workers: nat, events: seq<Event>, t: nat)
    requires var s := Exec(Init(mem, workers), events);
      Flushing(s, t) && s.conn.connected && s.conn.pending == 0 && s.conn.ring.Stored() > 0
    ensures var (s, go) := (Exec(Init(mem, workers), events), [Event(t, Go(true))]);
      var region := if s.conn.ring.aSize > 0 then s.conn.ring.aSize else s.conn.ring.bSize;
      && region <= |s.conn.ring.Contents()|
      && exists f: Flight ::
        && f.data == s.conn.ring.Contents()[..region] && f.taken.None?
        && Exec(Init(mem, workers), events + go + go + go)
          == BackAtTop(s, t, s.conn.(pending := 1, flight := Some(f)), s.workers[t].entries - 1)
  {
    hide Exec, Init, Ring.Valid, Ring.Contents, FlushLocked;
    OldestRegion(Exec(Init(mem, workers), events).conn);
    SendsAt(Init(mem, workers), events, t);
  }

  lemma SendsAt(start: State, events: seq<Event>, t: nat)
    requires start.conn.ring.Valid()
    requires var s := Exec(start, events);
      Flushing(s, t) && s.conn.connected && s.conn.pending == 0 && s.conn.ring.Stored() > 0
    ensures var (s, go) := (Exec(start, events), [Event(t, Go(true))]);
      Exec(start, events + go + go + go) == BackAtTop(s, t, FlushLocked(s.conn, true).0, s.workers[t].entries - 1)
  {
    hide Exec, Step, Ring.Valid, FlushLocked;
    var s := Exec(start, events);
    var (g, go, n) := (Go(true), [Event(t, Go(true))], s.workers[t].entries);
    var c' := FlushLocked(s.conn, true).0;
    SendSteps(s.conn, n, t);
    assert s.workers[t := Worker(SendLoop, n)] == s.workers;
    OneMore(start, events, s.conn, s.workers, t, Worker(SendLoop, n), g);
    OneMore(start, events + go, s.conn, s.workers, t, Worker(FlushChecked, n), g);
    OneMore(start, events + go + go, c', s.workers, t, Worker(FlushDone, n), g);
  }

  lemma OldestRegion(c: Connection)
    requires c.ring.Valid() && c.connected && c.pending == 0 && c.ring.Stored() > 0
    ensures var (c', region) := (FlushLocked(c, true).0, if c.ring.aSize > 0 then c.ring.aSize else c.ring.bSize);
      && region <= |c.ring.Contents()|
      && c'.flight.Some? && c'.flight.value.data == c.ring.Contents()[..region] && c'.flight.value.taken.None?
      && c' == c.(pending := 1, flight := c'.flight) && FlushLocked(c, true).1 == Drop
  {
  }

  /** After every run: a refused send disconnects and drops the entry, and the bytes stay where they are. */
  lemma FlushRefused(mem: seq<Byte>, workers: nat, events: seq<Event>, t: nat)
    requires var s := Exec(Init(mem, workers), events);
      Flushing(s, t) && s.conn.connected && s.conn.pending == 0 && s.conn.ring.Stored() > 0
    ensures var (s, go) := (Exec(Init(mem, workers), events), [Event(t, Go(true))]);
      Exec(Init(mem, workers), events + go + [Event(t, Go(false))] + go + go)
      == BackAtTop(s, t, s.conn.(connected := false), s.workers[t].entries - 1)
  {
    var s := Exec(Init(mem, workers), events);
    var (g, go, no, n) := (Go(true), [Event(t, Go(true))], [Event(t, Go(false))], s.workers[t].entries);
    var c' := s.conn.(connected := false);
    hide Exec, Init, Step, Ring.Valid, FlushLocked;
    SendSteps(s.conn, n, t);
    assert s.workers[t := Worker(SendLoop, n)] == s.workers;
    OneMore(Init(mem, workers), events, s.conn, s.workers, t, Worker(SendLoop, n), g);
    OneMore(Init(mem, workers), events + go, s.conn, s.workers, t, Worker(FlushChecked, n), Go(false));
    OneMore(Init(mem, workers), events + go + no, s.conn, s.workers, t, Worker(FlushClosing, n), g);
    OneMore(Init(mem, workers), events + go + no + go, c', s.workers, t, Worker(FlushDone, n), g);
  }

  /**
   * After every run, for a worker inside a job: a post on a disconnected session is refused outright; on a
   * connected one it is accepted exactly if the bytes fit, and then they are buffered last and remembered.
   */
  lemma PostTurn(mem: seq<Byte>, workers: nat, events: seq<Event>, t: nat, data: seq<Byte>)
    requires var s := Exec(Init(mem, workers), events); t < |s.workers| && s.workers[t].pc == Job
    ensures var s := Exec(Init(mem, workers), events); s.conn.ring.Valid()
    ensures var (s, post) := (Exec(Init(mem, workers), events), [Event(t, Post(data))]);
      var s' := Exec(Init(mem, workers), events + post + [Event(t, Go(true))]);
      var ok := s.conn.connected && |data| <= s.conn.ring.Free();
      && (!s.conn.connected ==> Exec(Init(mem, workers), events + post) == s)
      && s'.conn.ring.Valid()
      && (s.conn.connected ==>
        && s'.conn.ring.Contents() == s.conn.ring.Contents() + (if ok then data else [])
        && s'.conn.accepted == s.conn.accepted + (if ok then data else [])
        && s'.workers == s.workers[t := Worker(Job, s.workers[t].entries + if ok then 1 else 0)])
  {
    hide Exec, Init, Ring.Valid, Ring.Contents, Ring.Free;
    PostAt(Init(mem, workers), events, t, data);
  }

  lemma PostAt(start: State, events: seq<Event>, t: nat, data: seq<Byte>)
    requires start.conn.ring.Valid() && t < |Exec(start, events).workers| && Exec(start, events).workers[t].pc == Job
    ensures var (s, post) := (Exec(start, events), [Event(t, Post(data))]);
      var s' := Exec(start, events + post + [Event(t, Go(true))]);
      var ok := s.conn.connected && |data| <= s.conn.ring.Free();
      && (!s.conn.connected ==> Exec(start, events + post) == s)
      && (s.conn.connected ==>
        && s'.conn.ring.Contents() == s.conn.ring.Contents() + (if ok then data else [])
        && s'.conn.accepted == s.conn.accepted + (if ok then data else [])
        && s'.workers == s.workers[t := Worker(Job, s.workers[t].entries + if ok then 1 else 0)])
  {
    hide Exec, Step, Ring.Valid, Ring.Contents, Ring.Free;
    var s := Exec(start, events);
    var (post, n) := ([Event(t, Post(data))], s.workers[t].entries);
    PostSteps(s.conn, n, t, data);
    assert s.workers[t := Worker(Job, n)] == s.workers;
    OneMore(start, events, s.conn, s.workers, t, Worker(Job, n), Post(data));
    if s.conn.connected {
      OneMore(start, events + post, s.conn, s.workers, t, Worker(PostChecked(data), n), Go(true));
    }
  }

  lemma PostSteps(c: Connection, n: nat, t: nat, data: seq<Byte>)
    requires c.ring.Valid()
    ensures Step(c, Worker(Job, n), t, Post(data)) == (c, Worker(if c.connected then PostChecked(data) else Job, n))
    ensures var (c', w') := Step(c, Worker(PostChecked(data), n), t, Go(true));
      var ok := |data| <= c.ring.Free();
      && c'.ring.Contents() == c.ring.Contents() + (if ok then data else [])
      && c'.accepted == c.accepted + (if ok then data else [])
      && w' == Worker(Job, n + if ok then 1 else 0)
  {
    hide Ring.Valid, Ring.Contents, Ring.Free, Ring.Written;
    WrittenContents(c.ring, data);
    assert c.accepted + [] == c.accepted && c.ring.Contents() + [] == c.ring.Contents();
  }

  /** The send in flight, unless a worker has its completion in hand. */
  predicate InFlight(s: State, t: nat) {
    && t < |s.workers| && s.workers[t] == Worker(Waiting, 0)
    && s.conn.flight.Some? && s.conn.flight.value.taken.None?
  }

  /**
   * After every run: a completed send moves the bytes transferred from the front of the buffer to the wire,
   * and its worker goes on if those were all, and to close the connection otherwise.
   */
  lemma CompletionTurn(mem: seq<Byte>, workers: nat, events: seq<Event>, t: nat, n: nat)
    requires var s := Exec(Init(mem, workers), events); InFlight(s, t) && 0 < n <= |s.conn.flight.value.data|
    ensures var s := Exec(Init(mem, workers), events); s.conn.ring.Valid() && n <= |s.conn.ring.Contents()|
    ensures var s := Exec(Init(mem, workers), events);
      var s' := Exec(Init(mem, workers), events + [Event(t, TakeCompletion(n))] + [Event(t, Go(true))]);
      && s'.conn.ring.Contents() == s.conn.ring.Contents()[n..] && s'.conn.wire == s.conn.wire + s.conn.ring.Contents()[..n]
      && s'.conn.flight.None? && s'.conn.pending == 0 && s'.conn.connected == s.conn.connected
      && s'.workers == s.workers[t := Worker(if n == |s.conn.flight.value.data| then Job else MustClose, 0)]
  {
    AlwaysInv(mem, workers, events);
    CompletionSteps(Exec(Init(mem, workers), events).conn, t, n);
    hide Exec, Init, Step, Ring.Valid, Ring.Contents;
    CompletionAt(Init(mem, workers), events, t, n);
  }

  lemma CompletionSteps(c: Connection, t: nat, n: nat)
    requires c.ring.Valid() && FlightInv(c) && Conserved(c) && c.flight.Some? && c.flight.value.taken.None?
    requires 0 < n <= |c.flight.value.data|
    ensures n <= |c.ring.Contents()|
    ensures var taken := c.(flight := Some(c.flight.value.(taken := Some(t))));
      && Step(c, Worker(Waiting, 0), t, TakeCompletion(n)) == (taken, Worker(Completing(n), 0))
      && var (c', w') := Step(taken, Worker(Completing(n), 0), t, Go(true));
        && c'.ring.Contents() == c.ring.Contents()[n..] && c'.wire == c.wire + c.ring.Contents()[..n]
        && c'.flight.None? && c'.pending == 0 && c'.connected == c.connected
        && w' == Worker(if n == |c.flight.value.data| then Job else MustClose, 0)
  {
    hide Ring.Contents, Ring.Removed, Ring.Valid;
    RemovedContents(c.ring, n);
    FrontOfA(c.ring, n);
  }

  lemma CompletionAt(start: State, events: seq<Event>, t: nat, n: nat)
    requires start.conn.ring.Valid() && InFlight(Exec(start, events), t) && 0 < n <= |Exec(start, events).conn.flight.value.data|
    requires var c := Exec(start, events).conn;
      Step(c, Worker(Waiting, 0), t, TakeCompletion(n))
      == (c.(flight := Some(c.flight.value.(taken := Some(t)))), Worker(Completing(n), 0))
    ensures var s := Exec(start, events);
      var (c', w') := Step(s.conn.(flight := Some(s.conn.flight.value.(taken := Some(t)))), Worker(Completing(n), 0), t, Go(true));
      Exec(start, events + [Event(t, TakeCompletion(n))] + [Event(t, Go(true))]) == State(c', s.workers[t := w'])
  {
    hide Exec, Step, Ring.Valid, Ring.Contents;
    var s := Exec(start, events);
    var taken := s.conn.(flight := Some(s.conn.flight.value.(taken := Some(t))));
    assert s.workers[t := Worker(Waiting, 0)] == s.workers;
    OneMore(start, events, s.conn, s.workers, t, Worker(Waiting, 0), TakeCompletion(n));
    OneMore(start, events + [Event(t, TakeCompletion(n))], taken, s.workers, t, Worker(Completing(n), 0), Go(true));
  }

  // And what is posted is sent

  /** The connection after each step of sending `data` in one piece. */
  lemma DeliverySteps(c: Connection, data: seq<Byte>)
    requires c.ring.Valid() && c.ring.a == c.ring.aSize == 0 && c.ring.b.None? && 0 < |data| <= |c.ring.mem|
    requires c.connected && c.pending == 0 && c.flight.None? && c.wire == []
    ensures var (g, c1) := (Go(true), PostLocked(c, data).0);
      var c2 := FlushLocked(c1, true).0;
      && c2.flight.Some?
      && var c3 := c2.(flight := Some(c2.flight.value.(taken := Some(0))));
        && Step(c, Worker(Waiting, 0), 0, Wake) == (c, Worker(Job, 0))
        && Step(c, Worker(Job, 0), 0, Post(data)) == (c, Worker(PostChecked(data), 0))
        && Step(c, Worker(PostChecked(data), 0), 0, g) == (c1, Worker(Job, 1))
        && Step(c1, Worker(Job, 1), 0, EndJob) == (c1, Worker(SendLoop, 1))
        && Step(c1, Worker(SendLoop, 1), 0, g) == (c1, Worker(FlushChecked, 1))
        && Step(c1, Worker(FlushChecked, 1), 0, g) == (c2, Worker(FlushDone, 1))
        && Step(c2, Worker(FlushDone, 1), 0, g) == (c2, Worker(SendLoop, 0))
        && Step(c2, Worker(SendLoop, 0), 0, g) == (c2, Worker(Waiting, 0))
        && Step(c2, Worker(Waiting, 0), 0, TakeCompletion(|data|)) == (c3, Worker(Completing(|data|), 0))
        && var c4 := Step(c3, Worker(Completing(|data|), 0), 0, g);
          && c4.1 == Worker(Job, 0) && c4.0.connected && c4.0.pending == 0 && c4.0.flight.None?
          && c4.0.ring.Valid() && c4.0.ring.Stored() == 0 && c4.0.wire == data
  {
    PostedWhole(c, data);
    hide PostLocked, Ring.Contents;
  }

  lemma PostedWhole(c: Connection, data: seq<Byte>)
    requires c.ring.Valid() && c.ring.a == c.ring.aSize == 0 && c.ring.b.None? && |data| <= |c.ring.mem|
    ensures var (c1, ok) := PostLocked(c, data);
      && ok && c1 == c.(ring := c1.ring, accepted := c.accepted + data)
      && c1.ring.Valid() && c1.ring.a == 0 && c1.ring.aSize == |data| && c1.ring.b.None? && c1.ring.bSize == 0
      && |c1.ring.mem| == |c.ring.mem| && c1.ring.mem[..|data|] == data
  {
  }

  /** Delivery: with any number of workers, data that fits the buffer can be posted, flushed and completed onto the wire. */
  lemma Delivers(mem: seq<Byte>, workers: nat, data: seq<Byte>)
    requires 0 < |data| <= |mem| && workers >= 1
    ensures exists events :: var c := Exec(Init(mem, workers), events).conn;
      c.wire == data && c.ring.Stored() == 0 && c.connected && c.pending == 0
  {
    var s := Init(mem, workers);
    var (c, ws, g) := (s.conn, s.workers, Go(true));
    DeliverySteps(c, data);
    var c1 := PostLocked(c, data).0;
    var c2 := FlushLocked(c1, true).0;
    var c3 := c2.(flight := Some(c2.flight.value.(taken := Some(0))));
    hide Exec, Do, Step, Init, PostLocked, FlushLocked, Ring.Valid;
    NothingDone(s);
    StepAlone(s, [], c, ws, 0, Wake);
    var events := [] + [Event(0, Wake)];
    events := NextStep(s, events, c, ws, Worker(Job, 0), Post(data));
    events := NextStep(s, events, c, ws, Worker(PostChecked(data), 0), g);
    events := NextStep(s, events, c1, ws, Worker(Job, 1), EndJob);
    events := NextStep(s, events, c1, ws, Worker(SendLoop, 1), g);
    events := NextStep(s, events, c1, ws, Worker(FlushChecked, 1), g);
    events := NextStep(s, events, c2, ws, Worker(FlushDone, 1), g);
    events := NextStep(s, events, c2, ws, Worker(SendLoop, 0), g);
    events := NextStep(s, events, c2, ws, Worker(Waiting, 0), TakeCompletion(|data|));
    events := NextStep(s, events, c3, ws, Worker(Completing(|data|), 0), g);
    assert Exec(s, events).conn.wire == data;
  }
}
