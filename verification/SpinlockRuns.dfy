/**
 * What a thread gets from a spinlock: when entering and leaving crash, that readers share a lock, that a
 * reader never becomes a writer, and that entering and leaving undo each other.
 */
module SpinlockRuns {
  import opened Options
  import opened Counting
  import opened LockOrder
  import opened Spinlock

  // When the lock-order checker crashes the process

  /** The ordered locks a thread is inside. */
  function HeldLocks(s: State, t: nat): set<nat>
    requires t < |s.threads| && |s.threads[t].phases| == |s.orders|
  {
    set k: nat | k < |s.orders| && s.orders[k] != LO_DONT_CARE && s.threads[t].phases[k] in {WInside, RInside}
  }

  function Elements(stack: seq<nat>): set<nat> {
    set k | k in stack
  }

  lemma {:induction false} DistinctCount(orders: seq<nat>, stack: seq<nat>)
    requires Increasing(orders, stack)
    ensures |Elements(stack)| == |stack|
  {
    if stack != [] {
      var (first, rest) := (stack[0], stack[1..]);
      assert stack == [first] + rest;
      assert forall i :: 0 <= i < |rest| ==> rest[i] == stack[i + 1];
      DistinctCount(orders, rest);
      assert first !in rest;
      assert Elements(stack) == Elements(rest) + {first};
    }
  }

  /** An idle thread's stack holds the ordered locks it is inside, each once. */
  lemma StackIsHeld(s: State, t: nat)
    requires Inv(s) && t < |s.threads| && s.threads[t].busy.None?
    ensures |s.threads[t].phases| == |s.orders|
    ensures Increasing(s.orders, s.threads[t].stack)
    ensures forall k :: k in HeldLocks(s, t) <==> k in s.threads[t].stack
    ensures |HeldLocks(s, t)| == |s.threads[t].stack|
  {
    hide WordInv, ExclusionInv;
    var th := s.threads[t];
    assert ThreadShape(s, th) && StackInv(s.orders, th);
    forall k
      ensures k in HeldLocks(s, t) <==> k in th.stack
    {
      if k in th.stack {
        var i :| 0 <= i < |th.stack| && th.stack[i] == k;
      }
    }
    DistinctCount(s.orders, th.stack);
    assert HeldLocks(s, t) == Elements(th.stack);
  }

  /** An unordered lock, or one above every ordered lock the thread is inside with fewer than 32 of those. */
  predicate MayEnter(s: State, t: nat, l: nat)
    requires t < |s.threads| && |s.threads[t].phases| == |s.orders| && l < |s.orders|
  {
    || s.orders[l] == LO_DONT_CARE
    || (|HeldLocks(s, t)| < 32 && forall k :: k in HeldLocks(s, t) ==> s.orders[k] < s.orders[l])
  }

  lemma EntryAt(s: State, t: nat, l: nat, action: Action)
    requires Inv(s) && !s.crashed && t < |s.threads| && s.threads[t].busy.None? && l < |s.orders|
    requires action in {EnterWrite(l), EnterRead(l)}
    ensures |s.threads[t].phases| == |s.orders|
    ensures var s' := Do(s, Event(t, action));
      && (s'.crashed <==> !MayEnter(s, t, l))
      && (!s'.crashed && s.threads[t].phases[l] == Outside ==>
        Holds(s', t, l, if action.EnterWrite? then WSpin else RSpin) && s'.flags == s.flags)
  {
    hide HeldLocks;
    StackIsHeld(s, t);
    var stack := s.threads[t].stack;
    PushAllowedExactly(s.orders, stack, l);
    hide PushAllowed;
    assert (forall k :: k in HeldLocks(s, t) ==> s.orders[k] < s.orders[l])
      <==> forall i :: 0 <= i < |stack| ==> s.orders[stack[i]] < s.orders[l] by {
      assert forall i :: 0 <= i < |stack| ==> stack[i] in HeldLocks(s, t);
    }
  }

  /**
   * Entering crashes exactly if the lock is ordered and not above every ordered lock the thread is inside, or
   * 32 of those are held; otherwise the thread is on its way into the mode it asked for.
   */
  lemma EntryCrashesExactly(orders: seq<nat>, threads: nat, events: seq<Event>, t: nat, l: nat, action: Action)
    requires var s := Exec(Init(orders, threads), events);
      !s.crashed && t < |s.threads| && s.threads[t].busy.None? && l < |orders|
    requires action in {EnterWrite(l), EnterRead(l)}
    ensures var s := Exec(Init(orders, threads), events);
      s.orders == orders && |s.threads[t].phases| == |orders|
    ensures var (s, s') := (Exec(Init(orders, threads), events), Exec(Init(orders, threads), events + [Event(t, action)]));
      && (s'.crashed <==> !MayEnter(s, t, l))
      && (!s'.crashed && s.threads[t].phases[l] == Outside ==>
        Holds(s', t, l, if action.EnterWrite? then WSpin else RSpin) && s'.flags == s.flags)
  {
    hide Inv, Do, Exec, MayEnter;
    AlwaysInv(orders, threads, events);
    ExecNext(Init(orders, threads), events, Event(t, action));
    EntryAt(Exec(Init(orders, threads), events), t, l, action);
  }

  lemma LeaveAt(s: State, t: nat, l: nat)
    requires Inv(s) && !s.crashed && t < |s.threads| && s.threads[t].busy.None? && l < |s.orders|
    requires Holds(s, t, l, WInside) || Holds(s, t, l, RInside)
    ensures |s.threads[t].phases| == |s.orders|
    ensures var s' := Do(s, Event(t, Leave(l)));
      && (s'.crashed <==> s.orders[l] != LO_DONT_CARE && exists k :: k in HeldLocks(s, t) && s.orders[k] > s.orders[l])
      && (!s'.crashed ==> Holds(s', t, l, if Holds(s, t, l, WInside) then WLeaving else RLeaving) && s'.flags == s.flags)
  {
    StackIsHeld(s, t);
    var stack := s.threads[t].stack;
    assert s.orders[l] != LO_DONT_CARE ==> l in HeldLocks(s, t);
    hide HeldLocks;
    if s.orders[l] != LO_DONT_CARE {
      TopIsHighest(s.orders, stack, l);
      assert forall k :: k in stack ==> k in HeldLocks(s, t);
    }
  }

  lemma TopIsHighest(orders: seq<nat>, stack: seq<nat>, l: nat)
    requires Increasing(orders, stack) && l in stack && l < |orders|
    ensures PopAllowed(stack, l) <==> forall k :: k in stack ==> orders[k] <= orders[l]
  {
    var i :| 0 <= i < |stack| && stack[i] == l;
    var top := |stack| - 1;
    assert stack[top] in stack;
    assert i < top ==> orders[stack[i]] < orders[stack[top]];
  }

  /** Leaving crashes exactly if the thread is inside an ordered lock of higher order; otherwise it is on its way out. */
  lemma LeaveCrashesExactly(orders: seq<nat>, threads: nat, events: seq<Event>, t: nat, l: nat)
    requires var s := Exec(Init(orders, threads), events);
      !s.crashed && t < |s.threads| && s.threads[t].busy.None? && l < |orders| && (Holds(s, t, l, WInside) || Holds(s, t, l, RInside))
    ensures var s := Exec(Init(orders, threads), events);
      s.orders == orders && |s.threads[t].phases| == |orders|
    ensures var (s, s') := (Exec(Init(orders, threads), events), Exec(Init(orders, threads), events + [Event(t, Leave(l))]));
      && (s'.crashed <==> orders[l] != LO_DONT_CARE && exists k :: k in HeldLocks(s, t) && orders[k] > orders[l])
      && (!s'.crashed ==> Holds(s', t, l, if Holds(s, t, l, WInside) then WLeaving else RLeaving) && s'.flags == s.flags)
  {
    hide Inv, Do, Exec, HeldLocks, Holds;
    AlwaysInv(orders, threads, events);
    ExecNext(Init(orders, threads), events, Event(t, Leave(l)));
    LeaveAt(Exec(Init(orders, threads), events), t, l);
  }

  // A reader stays a reader

  predicate Writing(p: Phase) {
    p in {WSpin, WAdd, WBack, WDrain, WInside, WLeaving}
  }

  predicate Reading(p: Phase) {
    p in {RSpin, RAdd, RBack, RInside, RLeaving}
  }

  /** The call by which thread `t` last went for lock `l` from outside. */
  function LastEntry(orders: seq<nat>, threads: nat, events: seq<Event>, t: nat, l: nat): Option<Action> {
    if events == [] then None
    else
      var (front, last) := (events[..|events| - 1], events[|events| - 1]);
      var s := Exec(Init(orders, threads), front);
      if last.thread == t && last.action in {EnterWrite(l), EnterRead(l)} && Holds(s, t, l, Outside) && s.threads[t].busy.None? then
        Some(last.action)
      else LastEntry(orders, threads, front, t, l)
  }

  predicate InMode(s: State, t: nat, l: nat, entry: Option<Action>) {
    t < |s.threads| && l < |s.threads[t].phases| ==>
      && (Writing(s.threads[t].phases[l]) ==> entry == Some(EnterWrite(l)))
      && (Reading(s.threads[t].phases[l]) ==> entry == Some(EnterRead(l)))
  }

  /** Within a call a thread never changes from one mode to the other. */
  lemma AdvanceKeepsMode(flag: int, p: Phase)
    ensures var q := Advance(flag, p).1;
      (Writing(q) ==> Writing(p)) && (Reading(q) ==> Reading(p))
  {
    hide WriteBits, ReadBits, Add32;
  }

  lemma ModeStep(s: State, e: Event, t: nat, l: nat, before: Option<Action>, after: Option<Action>)
    requires Inv(s) && InMode(s, t, l, before)
    requires after == if e.thread == t && e.action in {EnterWrite(l), EnterRead(l)} && Holds(s, t, l, Outside) && s.threads[t].busy.None?
      then Some(e.action) else before
    ensures InMode(Do(s, e), t, l, after)
  {
    hide Advance, WordInv, ExclusionInv, Increasing, PushAllowed, PopAllowed;
    if e.thread < |s.threads| {
      var th := s.threads[e.thread];
      assert ThreadShape(s, th) && StackInv(s.orders, th);
      if e.action.Go? && th.busy.Some? {
        AdvanceKeepsMode(s.flags[th.busy.value], th.phases[th.busy.value]);
      }
      if e.action in {EnterWrite(l), EnterRead(l)} && th.busy.None? && l < |s.orders| && s.orders[l] != LO_DONT_CARE {
        if PushAllowed(s.orders, th.stack, l) {
          PushedFromOutside(s, th, l);
        }
      }
    }
  }

  /** After every run a thread is in the phases of the mode it last asked for, and in no phase of the other. */
  lemma {:induction false} ModeKept(orders: seq<nat>, threads: nat, events: seq<Event>, t: nat, l: nat)
    ensures InMode(Exec(Init(orders, threads), events), t, l, LastEntry(orders, threads, events, t, l))
  {
    hide Inv, Do, InMode;
    if events == [] {
      OutsideMode(orders, threads, t, l);
    } else {
      var front := events[..|events| - 1];
      AlwaysInv(orders, threads, front);
      ModeKept(orders, threads, front, t, l);
      ModeStep(Exec(Init(orders, threads), front), events[|events| - 1], t, l,
        LastEntry(orders, threads, front, t, l), LastEntry(orders, threads, events, t, l));
    }
  }

  lemma OutsideMode(orders: seq<nat>, threads: nat, t: nat, l: nat)
    ensures InMode(Init(orders, threads), t, l, None)
  {
  }

  // Readers share, and every entry can be undone

  lemma ReaderSteps(r: nat)
    requires r < 0x10_0000 - 1
    ensures Advance(Word(0, r), RSpin) == (Word(0, r), RAdd)
    ensures Advance(Word(0, r), RAdd) == (Word(0, r + 1), RInside)
    ensures Advance(Word(0, r + 1), RLeaving) == (Word(0, r), Outside)
  {
    WordAdds(0, r);
    WordAdds(0, r + 1);
    WordBits(0, r);
    WordBits(0, r + 1);
    hide Word, WriteBits, ReadBits, Add32;
  }

  lemma WriterSteps()
    ensures Advance(Word(0, 0), WSpin) == (Word(0, 0), WAdd)
    ensures Advance(Word(0, 0), WAdd) == (Word(1, 0), WDrain)
    ensures Advance(Word(1, 0), WDrain) == (Word(1, 0), WInside)
    ensures Advance(Word(1, 0), WLeaving) == (Word(0, 0), Outside)
  {
    hide Word, WriteBits, ReadBits, Add32;
    WordAdds(0, 0);
    WordAdds(1, 0);
    WordBits(0, 0);
    WordBits(1, 0);
  }

  lemma SmallWords(r: nat)
    requires r < 0x10_0000
    ensures Word(0, r) == r && Word(1, 0) == 0x10_0000
  {
    WrapSmall(r);
    WrapSmall(0x10_0000);
  }

  /** One step more of a run from a state with activity on one lock only. */
  lemma SoloStep(orders: seq<nat>, n: nat, events: seq<Event>, l: nat, phases: seq<Phase>, flag: int, t: nat, flag': int, p: Phase)
    requires l < |orders| && t < |phases| && !Settled(phases[t]) && (flag', p) == Advance(flag, phases[t])
    requires Exec(Init(orders, n), events) == Solo(orders, l, phases, flag)
    ensures Exec(Init(orders, n), events + [Event(t, Go)]) == Solo(orders, l, phases[t := p], flag')
  {
    hide Exec, Do, Advance, Solo;
    ExecNext(Init(orders, n), events, Event(t, Go));
    SoloGo(orders, l, phases, flag, t);
  }

  lemma SoloStart(orders: seq<nat>, n: nat, events: seq<Event>, l: nat, phases: seq<Phase>, flag: int, t: nat)
    requires l < |orders| && t < |phases| && phases[t] == Outside
    requires Exec(Init(orders, n), events) == Solo(orders, l, phases, flag)
    ensures Exec(Init(orders, n), events + [Event(t, EnterRead(l))]) == Solo(orders, l, phases[t := RSpin], flag)
    ensures Exec(Init(orders, n), events + [Event(t, EnterWrite(l))]) == Solo(orders, l, phases[t := WSpin], flag)
  {
    hide Exec, Do, Solo;
    ExecNext(Init(orders, n), events, Event(t, EnterRead(l)));
    ExecNext(Init(orders, n), events, Event(t, EnterWrite(l)));
    SoloEnter(orders, l, phases, flag, t);
  }

  lemma SoloLeave(orders: seq<nat>, n: nat, events: seq<Event>, l: nat, phases: seq<Phase>, flag: int, t: nat)
    requires l < |orders| && t < |phases| && phases[t] in {WInside, RInside}
    requires Exec(Init(orders, n), events) == Solo(orders, l, phases, flag)
    ensures Exec(Init(orders, n), events + [Event(t, Leave(l))])
      == Solo(orders, l, phases[t := if phases[t] == WInside then WLeaving else RLeaving], flag)
  {
    ExecNext(Init(orders, n), events, Event(t, Leave(l)));
    hide Exec;
    var p := if phases[t] == WInside then WLeaving else RLeaving;
    var (s, s') := (Solo(orders, l, phases, flag), Solo(orders, l, phases[t := p], flag));
    assert s.threads[t] == SoloThread(orders, l, phases[t]);
    assert s.threads[t].phases[l := p] == SoloThread(orders, l, p).phases;
    assert [l][..0] == [];
    assert Do(s, Event(t, Leave(l))).flags == s'.flags;
    assert Do(s, Event(t, Leave(l))).threads == s'.threads;
  }

  /** The first `k` readers are inside together. */
  lemma {:induction false} ReadersEnter(orders: seq<nat>, l: nat, n: nat, k: nat) returns (events: seq<Event>)
    requires l < |orders| && k <= n < 0x10_0000
    ensures Exec(Init(orders, n), events) == Solo(orders, l, All(k, RInside) + Rest(n - k), Word(0, k))
    decreases k
  {
    hide Exec, Solo, Advance, Word;
    if k == 0 {
      events := [];
      SoloInit(orders, l, n);
      EmptyWord();
      assert All(0, RInside) + Rest(n) == All(0, WAdd) + Rest(n);
    } else {
      var t := k - 1;
      events := ReadersEnter(orders, l, n, t);
      var phases := All(t, RInside) + Rest(n - t);
      ReaderSteps(t);
      SoloStart(orders, n, events, l, phases, Word(0, t), t);
      events := events + [Event(t, EnterRead(l))];
      SoloStep(orders, n, events, l, phases[t := RSpin], Word(0, t), t, Word(0, t), RAdd);
      events := events + [Event(t, Go)];
      assert phases[t := RSpin][t := RAdd] == phases[t := RAdd];
      SoloStep(orders, n, events, l, phases[t := RAdd], Word(0, t), t, Word(0, k), RInside);
      events := events + [Event(t, Go)];
      assert phases[t := RAdd][t := RInside] == All(k, RInside) + Rest(n - k);
    }
  }

  /** Readers share: for every lock of every set of locks, all threads can be inside as readers at once. */
  lemma ReadersShare(orders: seq<nat>, l: nat, n: nat)
    requires l < |orders| && n < 0x10_0000
    ensures exists events ::
      && (forall t: nat :: t < n ==> Holds(Exec(Init(orders, n), events), t, l, RInside))
      && |Exec(Init(orders, n), events).flags| == |orders|
      && Exec(Init(orders, n), events).flags[l] == n
  {
    var events := ReadersEnter(orders, l, n, n);
    SmallWords(n);
    hide Exec, Word;
    var s := Exec(Init(orders, n), events);
    forall t: nat | t < n
      ensures Holds(s, t, l, RInside)
    {
      assert s.threads[t] == SoloThread(orders, l, RInside);
    }
  }

  lemma FreeIsSolo(orders: seq<nat>, l: nat)
    requires l < |orders|
    ensures Exec(Init(orders, 1), []) == Init(orders, 1) == Solo(orders, l, [Outside], 0)
  {
    SoloInit(orders, l, 1);
    assert All(0, WAdd) + Rest(1) == [Outside];
  }

  lemma AloneStep(orders: seq<nat>, events: seq<Event>, l: nat, p: Phase, flag: int, flag': int, q: Phase)
    requires l < |orders| && !Settled(p) && (flag', q) == Advance(flag, p)
    requires Exec(Init(orders, 1), events) == Solo(orders, l, [p], flag)
    ensures Exec(Init(orders, 1), events + [Event(0, Go)]) == Solo(orders, l, [q], flag')
  {
    hide Exec, Solo, Advance;
    SoloStep(orders, 1, events, l, [p], flag, 0, flag', q);
    assert [p][0 := q] == [q];
  }

  lemma AloneEnters(orders: seq<nat>, l: nat)
    requires l < |orders|
    ensures Exec(Init(orders, 1), [Event(0, EnterRead(l))]) == Solo(orders, l, [RSpin], 0)
    ensures Exec(Init(orders, 1), [Event(0, EnterWrite(l))]) == Solo(orders, l, [WSpin], 0)
  {
    FreeIsSolo(orders, l);
    hide Exec, Solo;
    SoloStart(orders, 1, [], l, [Outside], 0, 0);
    assert [] + [Event(0, EnterRead(l))] == [Event(0, EnterRead(l))] && [] + [Event(0, EnterWrite(l))] == [Event(0, EnterWrite(l))];
    assert [Outside][0 := RSpin] == [RSpin] && [Outside][0 := WSpin] == [WSpin];
  }

  lemma AloneLeaves(orders: seq<nat>, events: seq<Event>, l: nat, p: Phase, q: Phase, flag: int)
    requires l < |orders| && (p, q) in {(WInside, WLeaving), (RInside, RLeaving)} && Advance(flag, q) == (0, Outside)
    requires Exec(Init(orders, 1), events) == Solo(orders, l, [p], flag)
    ensures Exec(Init(orders, 1), events + [Event(0, Leave(l))] + [Event(0, Go)]) == Init(orders, 1)
  {
    FreeIsSolo(orders, l);
    hide Exec, Solo, Advance;
    SoloLeave(orders, 1, events, l, [p], flag, 0);
    assert [p][0 := q] == [q];
    AloneStep(orders, events + [Event(0, Leave(l))], l, q, flag, 0, Outside);
  }

  lemma FirstReader()
    ensures Advance(0, RSpin) == (0, RAdd) && Advance(0, RAdd) == (1, RInside) && Advance(1, RLeaving) == (0, Outside)
  {
    hide Word, Advance;
    ReaderSteps(0);
    SmallWords(0);
    SmallWords(1);
  }

  lemma FirstWriter()
    ensures Advance(0, WSpin) == (0, WAdd) && Advance(0, WAdd) == (0x10_0000, WDrain)
    ensures Advance(0x10_0000, WDrain) == (0x10_0000, WInside) && Advance(0x10_0000, WLeaving) == (0, Outside)
  {
    hide Word, Advance;
    WriterSteps();
    SmallWords(0);
  }

  /** A thread alone reads: the flag is 1 while it is inside, and leaving restores the free lock. */
  lemma ReadInAndOut(orders: seq<nat>, l: nat)
    requires l < |orders|
    ensures var (free, g) := (Init(orders, 1), [Event(0, Go)]);
      var inside := [Event(0, EnterRead(l))] + g + g;
      && Exec(free, inside) == Solo(orders, l, [RInside], 1)
      && Exec(free, inside + [Event(0, Leave(l))] + g) == free
  {
    var (e, g) := ([Event(0, EnterRead(l))], [Event(0, Go)]);
    hide Exec, Solo, Advance, Init;
    AloneEnters(orders, l);
    FirstReader();
    AloneStep(orders, e, l, RSpin, 0, 0, RAdd);
    AloneStep(orders, e + g, l, RAdd, 0, 1, RInside);
    AloneLeaves(orders, e + g + g, l, RInside, RLeaving, 1);
  }

  /** A thread alone writes: the flag is 2^20 while it is inside, and leaving restores the free lock. */
  lemma WriteInAndOut(orders: seq<nat>, l: nat)
    requires l < |orders|
    ensures var (free, g) := (Init(orders, 1), [Event(0, Go)]);
      var inside := [Event(0, EnterWrite(l))] + g + g + g;
      && Exec(free, inside) == Solo(orders, l, [WInside], 0x10_0000)
      && Exec(free, inside + [Event(0, Leave(l))] + g) == free
  {
    var (e, g) := ([Event(0, EnterWrite(l))], [Event(0, Go)]);
    hide Exec, Solo, Advance, Init;
    AloneEnters(orders, l);
    FirstWriter();
    AloneStep(orders, e, l, WSpin, 0, 0, WAdd);
    AloneStep(orders, e + g, l, WAdd, 0, 0x10_0000, WDrain);
    AloneStep(orders, e + g + g, l, WDrain, 0x10_0000, 0x10_0000, WInside);
    AloneLeaves(orders, e + g + g + g, l, WInside, WLeaving, 0x10_0000);
  }
}
