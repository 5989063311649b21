/**
 * The grand central executer: tasks dispatched by any thread are run one at a time by whichever thread
 * found the counter at zero. Every access to the shared counter and queue is one atomic step.
 */
module Executer {
  import opened Counting
  import opened Options

  /** One activation of DoDispatch on a thread's call stack. */
  datatype Frame =
    | PushOnly(task: nat)     // someone else drains: push and return
    | PushFirst(task: nat)    // this activation is responsible: push, then drain
    | Draining                // at the top of the loop, about to try_pop
    | Running(task: nat)      // inside a popped task, which may itself dispatch
    | Finished(task: nat)     // the popped task has returned, about to decrement

  /** The shared counter and queue, the call stacks, and the history of tasks. */
  datatype State = State(
    remaining: nat, queue: seq<nat>, threads: seq<seq<Frame>>,
    issued: nat, pushed: seq<nat>, started: seq<nat>, finished: seq<nat>)

  datatype Action = Dispatch | Go

  datatype Event = Event(thread: nat, action: Action)

  function Top(stack: seq<Frame>): Frame
    requires stack != []
  {
    stack[|stack| - 1]
  }

  function Below(stack: seq<Frame>): seq<Frame>
    requires stack != []
  {
    stack[..|stack| - 1]
  }

  /** A new task (numbered by `issued`) is dispatched by a thread that is idle or inside a task. */
  function DispatchStep(s: State, t: nat): State
    requires t < |s.threads|
  {
    var stack := s.threads[t];
    if stack == [] || Top(stack).Running? then
      var frame := if s.remaining + 1 > 1 then PushOnly(s.issued) else PushFirst(s.issued);
      s.(remaining := s.remaining + 1, issued := s.issued + 1, threads := s.threads[t := stack + [frame]])
    else s
  }

  /** The next step of the activation on top of a thread's stack. */
  function GoStep(s: State, t: nat): State
    requires t < |s.threads|
  {
    var stack := s.threads[t];
    if stack == [] then s
    else
      match Top(stack)
      case PushOnly(k) =>
        s.(queue := s.queue + [k], pushed := s.pushed + [k], threads := s.threads[t := Below(stack)])
      case PushFirst(k) =>
        s.(queue := s.queue + [k], pushed := s.pushed + [k], threads := s.threads[t := Below(stack) + [Draining]])
      case Draining =>
        if s.queue == [] then s
        else
          var k := s.queue[0];
          s.(queue := s.queue[1..], started := s.started + [k], threads := s.threads[t := Below(stack) + [Running(k)]])
      case Running(k) =>
        s.(finished := s.finished + [k], threads := s.threads[t := Below(stack) + [Finished(k)]])
      case Finished(k) =>
        if s.remaining == 0 then s
        else s.(remaining := s.remaining - 1,
                threads := s.threads[t := if s.remaining - 1 == 0 then Below(stack) else Below(stack) + [Draining]])
  }

  function Do(s: State, e: Event): State {
    if e.thread >= |s.threads| then s
    else if e.action.Dispatch? then DispatchStep(s, e.thread)
    else GoStep(s, e.thread)
  }

  function Init(threads: nat): State {
    State(0, [], seq(threads, _ => []), 0, [], [], [])
  }

  function Exec(s: State, events: seq<Event>): State {
    if events == [] then s else Do(Exec(s, events[..|events| - 1]), events[|events| - 1])
  }

  // Counting activations

  datatype Kind = Pusher | FirstPusher | Drainer | Runner | Finisher

  function KindOf(f: Frame): Kind {
    match f
    case PushOnly(_) => Pusher
    case PushFirst(_) => FirstPusher
    case Draining => Drainer
    case Running(_) => Runner
    case Finished(_) => Finisher
  }

  function IsKind(kind: Kind): Frame -> nat {
    (f: Frame) => if KindOf(f) == kind then 1 else 0
  }

  /** How many activations of one kind there are on all call stacks. */
  function Number(s: State, kind: Kind): nat {
    Total(s, IsKind(kind))
  }

  /** Activations responsible for draining the queue. */
  function Drivers(s: State): nat {
    Number(s, FirstPusher) + Number(s, Drainer) + Number(s, Runner) + Number(s, Finisher)
  }

  function PendingTask(k: nat): Frame -> nat {
    (f: Frame) => if (f.PushOnly? || f.PushFirst?) && f.task == k then 1 else 0
  }

  function OnStack(w: Frame -> nat): seq<Frame> -> nat {
    (stack: seq<Frame>) => Sum(stack, w)
  }

  function Total(s: State, w: Frame -> nat): nat {
    Sum(s.threads, OnStack(w))
  }

  /** A step takes the top frame `gone` off the stack of thread `t`, if any, and puts `come` on, if any. */
  predicate Swap(s: State, t: nat, threads: seq<seq<Frame>>, gone: Option<Frame>, come: Option<Frame>) {
    && t < |s.threads|
    && (gone.Some? ==> s.threads[t] != [] && Top(s.threads[t]) == gone.value)
    && var kept := if gone.Some? then Below(s.threads[t]) else s.threads[t];
      threads == s.threads[t := if come.Some? then kept + [come.value] else kept]
  }

  function Of(w: Frame -> nat, f: Option<Frame>): nat {
    if f.Some? then w(f.value) else 0
  }

  /** A total changes by the frame that goes and the frame that comes. */
  lemma TotalSwap(s: State, t: nat, threads: seq<seq<Frame>>, gone: Option<Frame>, come: Option<Frame>, w: Frame -> nat)
    requires Swap(s, t, threads, gone, come)
    ensures Sum(threads, OnStack(w)) + Of(w, gone) == Total(s, w) + Of(w, come)
  {
    var stack := s.threads[t];
    var kept := if gone.Some? then Below(stack) else stack;
    SumUpdate(s.threads, OnStack(w), t, threads[t]);
    if gone.Some? {
      SumAppend(kept, w, gone.value);
      assert stack == kept + [gone.value];
    }
    if come.Some? {
      SumAppend(kept, w, come.value);
    }
  }

  // The invariant

  /** A call stack: at most a drainer, with a nested push on top of it only while it runs a task. */
  predicate StackShape(stack: seq<Frame>) {
    && |stack| <= 2
    && (|stack| == 2 ==> stack[0].Running? && stack[1].PushOnly?)
  }

  /** The counter counts the tasks queued, about to be pushed, or being executed; one driver exists while it is not zero. */
  predicate CounterInv(s: State) {
    && s.remaining == |s.queue| + Number(s, Pusher) + Number(s, FirstPusher) + Number(s, Runner) + Number(s, Finisher)
    && Drivers(s) == (if s.remaining == 0 then 0 else 1)
  }

  /** Pushed tasks are started in order, and finished in the order they were started. */
  predicate OrderInv(s: State) {
    && s.pushed == s.started + s.queue
    && s.finished <= s.started
    && |s.started| == |s.finished| + Number(s, Runner)
  }

  /** A running task is the one started last. */
  predicate RunningInv(s: State) {
    forall t :: 0 <= t < |s.threads| && s.threads[t] != [] && s.threads[t][0].Running? ==>
      s.started != [] && s.started[|s.started| - 1] == s.threads[t][0].task
  }

  /** Task `k`, once dispatched, is waiting to be pushed or has been pushed, exactly once. */
  predicate OnceInv(s: State, k: nat) {
    multiset(s.pushed)[k] + Total(s, PendingTask(k)) == (if k < s.issued then 1 else 0)
  }

  ghost predicate Inv(s: State) {
    && (forall t :: 0 <= t < |s.threads| ==> StackShape(s.threads[t]))
    && CounterInv(s) && OrderInv(s) && RunningInv(s)
    && forall k: nat :: OnceInv(s, k)
  }

  /** The frames a step takes off and puts on. */
  function Change(s: State, e: Event): (Option<Frame>, Option<Frame>)
    requires e.thread < |s.threads|
  {
    var stack := s.threads[e.thread];
    if e.action.Dispatch? then
      if stack == [] || Top(stack).Running? then
        (None, Some(if s.remaining + 1 > 1 then PushOnly(s.issued) else PushFirst(s.issued)))
      else (None, None)
    else if stack == [] then (None, None)
    else
      match Top(stack)
      case PushOnly(k) => (Some(PushOnly(k)), None)
      case PushFirst(k) => (Some(PushFirst(k)), Some(Draining))
      case Draining => if s.queue == [] then (None, None) else (Some(Draining), Some(Running(s.queue[0])))
      case Running(k) => (Some(Running(k)), Some(Finished(k)))
      case Finished(k) =>
        if s.remaining == 0 then (None, None)
        else (Some(Finished(k)), if s.remaining - 1 == 0 then None else Some(Draining))
  }

  lemma StepIsSwap(s: State, e: Event)
    requires e.thread < |s.threads|
    ensures var (gone, come) := Change(s, e); Swap(s, e.thread, Do(s, e).threads, gone, come)
  {
  }

  function One(f: Option<Frame>, kind: Kind): nat {
    if f.Some? && KindOf(f.value) == kind then 1 else 0
  }

  lemma TotalAfter(s: State, e: Event, w: Frame -> nat)
    requires e.thread < |s.threads|
    ensures var c := Change(s, e); Total(Do(s, e), w) + Of(w, c.0) == Total(s, w) + Of(w, c.1)
  {
    hide Do, Change, Swap;
    var c := Change(s, e);
    StepIsSwap(s, e);
    TotalSwap(s, e.thread, Do(s, e).threads, c.0, c.1, w);
  }

  lemma NumbersAfter(s: State, e: Event)
    requires e.thread < |s.threads|
    ensures var (s', c) := (Do(s, e), Change(s, e));
      && Number(s', Pusher) + One(c.0, Pusher) == Number(s, Pusher) + One(c.1, Pusher)
      && Number(s', FirstPusher) + One(c.0, FirstPusher) == Number(s, FirstPusher) + One(c.1, FirstPusher)
      && Number(s', Drainer) + One(c.0, Drainer) == Number(s, Drainer) + One(c.1, Drainer)
      && Number(s', Runner) + One(c.0, Runner) == Number(s, Runner) + One(c.1, Runner)
      && Number(s', Finisher) + One(c.0, Finisher) == Number(s, Finisher) + One(c.1, Finisher)
  {
    hide Do, Change, Total;
    TotalAfter(s, e, IsKind(Pusher));
    TotalAfter(s, e, IsKind(FirstPusher));
    TotalAfter(s, e, IsKind(Drainer));
    TotalAfter(s, e, IsKind(Runner));
    TotalAfter(s, e, IsKind(Finisher));
  }

  /** A frame on a stack is counted. */
  lemma FrameCounted(s: State, t: nat, i: nat)
    requires t < |s.threads| && i < |s.threads[t]|
    ensures Number(s, KindOf(s.threads[t][i])) >= 1
  {
    var w := IsKind(KindOf(s.threads[t][i]));
    SumMember(s.threads[t], w, i);
    SumMember(s.threads, OnStack(w), t);
  }

  lemma CounterStep(s: State, e: Event)
    requires CounterInv(s) && e.thread < |s.threads|
    ensures CounterInv(Do(s, e))
  {
    hide Number;
    NumbersAfter(s, e);
    var stack := s.threads[e.thread];
    if stack != [] {
      FrameCounted(s, e.thread, |stack| - 1);
    }
  }

  lemma ShapeStep(s: State, e: Event)
    requires CounterInv(s) && e.thread < |s.threads|
    requires forall t :: 0 <= t < |s.threads| ==> StackShape(s.threads[t])
    ensures forall t :: 0 <= t < |Do(s, e).threads| ==> StackShape(Do(s, e).threads[t])
  {
    hide Number;
    var stack := s.threads[e.thread];
    assert StackShape(stack);
    if stack != [] {
      FrameCounted(s, e.thread, |stack| - 1);
    }
  }

  lemma OrderStep(s: State, e: Event)
    requires CounterInv(s) && OrderInv(s) && RunningInv(s) && e.thread < |s.threads| && StackShape(s.threads[e.thread])
    ensures OrderInv(Do(s, e))
  {
    hide Number;
    NumbersAfter(s, e);
    var stack := s.threads[e.thread];
    if stack != [] {
      FrameCounted(s, e.thread, |stack| - 1);
      if Top(stack).Running? && e.action.Go? {
        assert stack[0] == Top(stack);
        assert s.started == s.finished + [Top(stack).task];
      }
    }
  }

  lemma RunningStep(s: State, e: Event)
    requires CounterInv(s) && RunningInv(s) && e.thread < |s.threads| && StackShape(s.threads[e.thread])
    ensures RunningInv(Do(s, e))
  {
    hide Number;
    var (t, s') := (e.thread, Do(s, e));
    var stack := s.threads[t];
    if stack != [] {
      FrameCounted(s, t, |stack| - 1);
    }
    forall u | 0 <= u < |s'.threads| && s'.threads[u] != [] && s'.threads[u][0].Running?
      ensures s'.started != [] && s'.started[|s'.started| - 1] == s'.threads[u][0].task
    {
      if u != t {
        FrameCounted(s, u, 0);
      }
    }
  }

  lemma OnceStep(s: State, e: Event, k: nat)
    requires OnceInv(s, k) && e.thread < |s.threads|
    ensures OnceInv(Do(s, e), k)
  {
    hide Total;
    TotalAfter(s, e, PendingTask(k));
  }

  lemma InvStep(s: State, e: Event)
    requires Inv(s)
    ensures Inv(Do(s, e))
  {
    hide Do, StackShape, CounterInv, OrderInv, RunningInv, OnceInv;
    if e.thread < |s.threads| {
      assert StackShape(s.threads[e.thread]);
      CounterStep(s, e);
      ShapeStep(s, e);
      OrderStep(s, e);
      RunningStep(s, e);
      forall k: nat
        ensures OnceInv(Do(s, e), k)
      {
        assert OnceInv(s, k);
        OnceStep(s, e, k);
      }
    } else {
      OutOfRange(s, e);
    }
  }

  lemma OutOfRange(s: State, e: Event)
    requires e.thread >= |s.threads|
    ensures Do(s, e) == s
  {
  }

  lemma EmptyTotal(threads: nat, w: Frame -> nat)
    ensures Total(Init(threads), w) == 0
  {
    SumZero(Init(threads).threads, OnStack(w));
  }

  lemma InitInv(threads: nat)
    ensures Inv(Init(threads))
  {
    hide Total;
    EmptyTotal(threads, IsKind(Pusher));
    EmptyTotal(threads, IsKind(FirstPusher));
    EmptyTotal(threads, IsKind(Drainer));
    EmptyTotal(threads, IsKind(Runner));
    EmptyTotal(threads, IsKind(Finisher));
    forall k: nat
      ensures OnceInv(Init(threads), k)
    {
      EmptyTotal(threads, PendingTask(k));
    }
  }

  lemma {:induction false} AlwaysInv(threads: nat, events: seq<Event>)
    ensures Inv(Exec(Init(threads), events))
  {
    hide Inv, Do;
    if events == [] {
      InitInv(threads);
    } else {
      AlwaysInv(threads, events[..|events| - 1]);
      InvStep(Exec(Init(threads), events[..|events| - 1]), events[|events| - 1]);
    }
  }

  // Main results: after every run of every number of threads

  /** Position `i` of the stack of `t` is an activation responsible for the queue (a running task is one). */
  predicate Drives(s: State, t: nat, i: nat) {
    t < |s.threads| && i < |s.threads[t]| && !s.threads[t][i].PushOnly?
  }

  /** At most one activation anywhere drains, so no two tasks ever overlap, nested dispatches included. */
  lemma OneDrainer(threads: nat, events: seq<Event>, t: nat, i: nat, u: nat, j: nat)
    requires var s := Exec(Init(threads), events); Drives(s, t, i) && Drives(s, u, j)
    ensures t == u && i == j
  {
    hide Exec, Init, Inv;
    AlwaysInv(threads, events);
    OneDrainerIn(Exec(Init(threads), events), t, i, u, j);
  }

  lemma OneDrainerIn(s: State, t: nat, i: nat, u: nat, j: nat)
    requires Inv(s) && Drives(s, t, i) && Drives(s, u, j)
    ensures t == u && i == j
  {
    hide OrderInv, RunningInv, OnceInv, Number;
    if t == u {
      assert StackShape(s.threads[t]);
    } else {
      SeparateDrivers(s, t, i, u, j);
    }
  }

  lemma SeparateDrivers(s: State, t: nat, i: nat, u: nat, j: nat)
    requires Drives(s, t, i) && Drives(s, u, j) && t != u
    ensures Drivers(s) >= 2
  {
    hide Number;
    var (k1, k2) := (KindOf(s.threads[t][i]), KindOf(s.threads[u][j]));
    FrameCounted(s, t, i);
    FrameCounted(s, u, j);
    if k1 == k2 {
      assert Number(s, k1) >= 2 by {
        SumMember(s.threads[t], IsKind(k1), i);
        SumMember(s.threads[u], IsKind(k1), j);
        SumTwoMembers(s.threads, OnStack(IsKind(k1)), if t < u then t else u, if t < u then u else t);
        NumberIs(s, k1);
      }
    }
  }

  lemma NumberIs(s: State, kind: Kind)
    ensures Number(s, kind) == Sum(s.threads, OnStack(IsKind(kind)))
  {
  }

  /** A queue that is not empty always has a live drainer. */
  lemma QueueHasDrainer(threads: nat, events: seq<Event>)
    ensures var s := Exec(Init(threads), events);
      s.queue != [] ==> exists t, i :: Drives(s, t, i)
  {
    var s := Exec(Init(threads), events);
    AlwaysInv(threads, events);
    if s.queue != [] {
      var t, i := SomeDriver(s);
    }
  }

  lemma SomeDriver(s: State) returns (t: nat, i: nat)
    requires Drivers(s) > 0
    ensures Drives(s, t, i)
  {
    var kind := if Number(s, FirstPusher) > 0 then FirstPusher else if Number(s, Drainer) > 0 then Drainer
      else if Number(s, Runner) > 0 then Runner else Finisher;
    t := SumWitness(s.threads, OnStack(IsKind(kind)));
    i := SumWitness(s.threads[t], IsKind(kind));
  }

  /** A drainer that finds the queue empty is never waiting for nothing: someone is about to push. */
  lemma EmptyQueueHasPusher(threads: nat, events: seq<Event>, t: nat, i: nat)
    requires var s := Exec(Init(threads), events);
      s.queue == [] && t < |s.threads| && i < |s.threads[t]| && s.threads[t][i].Draining?
    ensures var s := Exec(Init(threads), events);
      exists u, j :: 0 <= u < |s.threads| && 0 <= j < |s.threads[u]| && s.threads[u][j].PushOnly?
  {
    var s := Exec(Init(threads), events);
    AlwaysInv(threads, events);
    FrameCounted(s, t, i);
    assert Number(s, Pusher) > 0;
    var u := SumWitness(s.threads, OnStack(IsKind(Pusher)));
    var j := SumWitness(s.threads[u], IsKind(Pusher));
  }

  /**
   * Tasks start in the order in which they were pushed and finish in the order in which they started, at
   * most one being unfinished; no task is pushed twice.
   */
  lemma QueueOrder(threads: nat, events: seq<Event>)
    ensures var s := Exec(Init(threads), events);
      && s.finished <= s.started <= s.pushed && |s.started| <= |s.finished| + 1
      && forall k: nat :: multiset(s.finished)[k] <= multiset(s.pushed)[k] <= 1 && (k >= s.issued ==> k !in s.pushed)
  {
    var s := Exec(Init(threads), events);
    AlwaysInv(threads, events);
    assert s.pushed == s.finished + s.pushed[|s.finished|..];
    forall k: nat
      ensures multiset(s.finished)[k] <= multiset(s.pushed)[k] <= 1 && (k >= s.issued ==> k !in s.pushed)
    {
      assert OnceInv(s, k);
      assert multiset(s.pushed) == multiset(s.finished) + multiset(s.pushed[|s.finished|..]);
      assert k in s.pushed <==> multiset(s.pushed)[k] > 0;
    }
  }

  /** A thread may dispatch when it is idle or inside a task. */
  predicate MayDispatch(s: State, t: nat) {
    t < |s.threads| && (s.threads[t] == [] || s.threads[t][|s.threads[t]| - 1].Running?)
  }

  /** How many dispatches a run contains: calls by a thread that was idle or inside a task at that moment. */
  function Dispatches(threads: nat, events: seq<Event>): nat {
    if events == [] then 0
    else
      var (front, last) := (events[..|events| - 1], events[|events| - 1]);
      Dispatches(threads, front) + if last.action == Dispatch && MayDispatch(Exec(Init(threads), front), last.thread) then 1 else 0
  }

  /** A dispatch is never refused, whatever the counter is. */
  lemma DispatchIssues(s: State, e: Event)
    ensures Do(s, e).issued == s.issued + if e.action == Dispatch && MayDispatch(s, e.thread) then 1 else 0
  {
  }

  /** After every run exactly the dispatched tasks have been issued. */
  lemma {:induction false} IssuedExactly(threads: nat, events: seq<Event>)
    ensures Exec(Init(threads), events).issued == Dispatches(threads, events)
  {
    hide Do, MayDispatch;
    if events != [] {
      var front := events[..|events| - 1];
      IssuedExactly(threads, front);
      DispatchIssues(Exec(Init(threads), front), events[|events| - 1]);
    }
  }

  /** When every activation has returned, each dispatch of the run has led to one task that has run exactly once. */
  lemma AllRunOnce(threads: nat, events: seq<Event>, k: nat)
    requires var s := Exec(Init(threads), events); forall t :: 0 <= t < |s.threads| ==> s.threads[t] == []
    ensures var s := Exec(Init(threads), events);
      && s.remaining == 0 && s.finished == s.pushed
      && multiset(s.finished)[k] == (if k < Dispatches(threads, events) then 1 else 0)
  {
    var s := Exec(Init(threads), events);
    AlwaysInv(threads, events);
    IssuedExactly(threads, events);
    assert OnceInv(s, k);
    forall w: Frame -> nat
      ensures Total(s, w) == 0
    {
      SumZero(s.threads, OnStack(w));
    }
  }

  // Every dispatched task can be run

  /** No thread is inside the executer. */
  predicate Quiescent(s: State) {
    forall t :: 0 <= t < |s.threads| ==> s.threads[t] == []
  }

  /** Steps a frame still has to make, those of the task it pushes included. */
  function StepsOf(): Frame -> nat {
    (f: Frame) =>
      match f
      case PushOnly(_) => 4
      case PushFirst(_) => 5
      case Draining => 1
      case Running(_) => 3
      case Finished(_) => 2
  }

  function StepsLeft(s: State): nat {
    3 * |s.queue| + Total(s, StepsOf())
  }

  /** A step that is not a wait brings the end nearer. */
  lemma GoNearer(s: State, t: nat)
    requires t < |s.threads| && s.threads[t] != [] && CounterInv(s)
    requires Top(s.threads[t]).Draining? ==> s.queue != []
    ensures StepsLeft(Do(s, Event(t, Go))) < StepsLeft(s)
    ensures Do(s, Event(t, Go)).issued == s.issued && |Do(s, Event(t, Go)).threads| == |s.threads|
  {
    hide Total;
    TotalAfter(s, Event(t, Go), StepsOf());
    if Top(s.threads[t]).Finished? {
      FrameCounted(s, t, |s.threads[t]| - 1);
    }
  }

  /** Someone who need not wait: if a drainer finds the queue empty, a thread about to push. */
  lemma SomeoneGoes(s: State) returns (t: nat)
    requires Inv(s) && !Quiescent(s)
    ensures t < |s.threads| && s.threads[t] != [] && (Top(s.threads[t]).Draining? ==> s.queue != [])
  {
    hide OrderInv, RunningInv, OnceInv;
    t :| 0 <= t < |s.threads| && s.threads[t] != [];
    if Top(s.threads[t]).Draining? && s.queue == [] {
      FrameCounted(s, t, |s.threads[t]| - 1);
      hide Number;
      t := PusherOnTop(s);
    }
  }

  lemma PusherOnTop(s: State) returns (t: nat)
    requires Number(s, Pusher) > 0 && forall t :: 0 <= t < |s.threads| ==> StackShape(s.threads[t])
    ensures t < |s.threads| && s.threads[t] != [] && Top(s.threads[t]).PushOnly?
  {
    t := SumWitness(s.threads, OnStack(IsKind(Pusher)));
    var i := SumWitness(s.threads[t], IsKind(Pusher));
    assert StackShape(s.threads[t]);
  }

  lemma ExecNext(s: State, events: seq<Event>, e: Event)
    ensures Exec(s, events + [e]) == Do(Exec(s, events), e)
  {
    hide Do;
    assert (events + [e])[..|events|] == events;
  }

  /** From every reachable state the executer can come to rest, without further dispatches. */
  lemma {:induction false} ComesToRest(threads: nat, events: seq<Event>) returns (more: seq<Event>)
    ensures Quiescent(Exec(Init(threads), events + more))
    ensures Dispatches(threads, events + more) == Dispatches(threads, events)
    decreases StepsLeft(Exec(Init(threads), events))
  {
    hide Inv, Do, Dispatches, StepsLeft, Quiescent, Exec;
    var s := Exec(Init(threads), events);
    AlwaysInv(threads, events);
    if Quiescent(s) {
      more := [];
      assert events + more == events;
    } else {
      var t := SomeoneGoes(s);
      var e := Event(t, Go);
      CounterOf(s);
      GoNearer(s, t);
      ExecNext(Init(threads), events, e);
      IssuedExactly(threads, events);
      IssuedExactly(threads, events + [e]);
      var rest := ComesToRest(threads, events + [e]);
      more := [e] + rest;
      assert events + more == (events + [e]) + rest;
    }
  }

  lemma CounterOf(s: State)
    requires Inv(s)
    ensures CounterInv(s)
  {
  }

  /** At rest with `n` tasks, each run exactly once. */
  ghost predicate RanAll(s: State, n: nat) {
    && Quiescent(s) && s.finished == s.pushed
    && forall k: nat :: multiset(s.finished)[k] == (if k < n then 1 else 0)
  }

  /** So every dispatched task can still be run to its end: some continuation leaves each of them finished exactly once. */
  lemma EveryTaskCanRun(threads: nat, events: seq<Event>)
    ensures exists more :: RanAll(Exec(Init(threads), events + more), Dispatches(threads, events))
  {
    var more := ComesToRest(threads, events);
    hide Exec, Dispatches;
    AllRunOnce(threads, events + more, 0);
    forall k: nat {
      AllRunOnce(threads, events + more, k);
    }
    assert RanAll(Exec(Init(threads), events + more), Dispatches(threads, events));
  }
}
