/**
 * Reader/writer spinlocks packed in one 32-bit word each, with the lock-order checker, as interleaved
 * atomic steps of any number of threads over any number of locks.
 */
module Spinlock {
  import opened Options
  import opened Counting
  import opened LockOrder

  // The flag word

  const LF_WRITE_FLAG: int := 0x0010_0000

  /** `flag & LF_WRITE_MASK`: bits 20 to 30 of a two's complement word. */
  function WriteBits(flag: int): int {
    flag % 0x8000_0000 / 0x10_0000 * 0x10_0000
  }

  /** `flag & LF_READ_MASK`: bits 0 to 19. */
  function ReadBits(flag: int): int {
    flag % 0x10_0000
  }

  function Wrap32(x: int): int {
    (x + 0x8000_0000) % 0x1_0000_0000 - 0x8000_0000
  }

  /** InterlockedAdd. */
  function Add32(flag: int, x: int): int {
    Wrap32(flag + x)
  }

  /** What a word shows when `w` writers and `r` readers have added themselves. */
  function Word(w: nat, r: nat): int {
    Wrap32(w * 0x10_0000 + r)
  }

  lemma WrapAdds(x: int, d: int)
    ensures Add32(Wrap32(x), d) == Wrap32(x + d)
  {
  }

  /** Adding to the word is adding to the count, wrapped or not. */
  lemma WordAdds(w: nat, r: nat)
    ensures Add32(Word(w, r), LF_WRITE_FLAG) == Word(w + 1, r)
    ensures Add32(Word(w, r), 1) == Word(w, r + 1)
    ensures w > 0 ==> Add32(Word(w, r), -LF_WRITE_FLAG) == Word(w - 1, r)
    ensures r > 0 ==> Add32(Word(w, r), -1) == Word(w, r - 1)
  {
    hide Wrap32, Add32;
    var x := w * 0x10_0000 + r;
    WrapAdds(x, LF_WRITE_FLAG);
    WrapAdds(x, -LF_WRITE_FLAG);
    WrapAdds(x, 1);
    WrapAdds(x, -1);
  }

  /** The masks recover the counts as long as neither field overflows. */
  lemma WordBits(w: nat, r: nat)
    ensures r < 0x10_0000 && w < 0x800 ==> WriteBits(Word(w, r)) == w * LF_WRITE_FLAG
    ensures r < 0x10_0000 ==> ReadBits(Word(w, r)) == r
    ensures WriteBits(Word(0x800, 0)) == 0 && WriteBits(Word(0x801, 0)) == LF_WRITE_FLAG
  {
  }

  // Threads

  datatype Phase =
    | Outside
    | WSpin      // EnterWriteLock: waiting for the writer bits to clear
    | WAdd       // saw them clear, about to add LF_WRITE_FLAG
    | WBack      // was not the first writer, about to subtract it again
    | WDrain     // first writer, waiting for the readers to leave
    | WInside
    | WLeaving   // popped from the checker, about to subtract
    | RSpin
    | RAdd
    | RBack
    | RInside
    | RLeaving

  predicate Settled(p: Phase) {
    p in {Outside, WInside, RInside}
  }

  /** A phase for every lock, the lock being entered or left, and the checker's stack. */
  datatype Thread = Thread(phases: seq<Phase>, busy: Option<nat>, stack: seq<nat>)

  datatype State = State(orders: seq<nat>, flags: seq<int>, threads: seq<Thread>, crashed: bool)

  datatype Action = EnterWrite(lock: nat) | EnterRead(lock: nat) | Leave(lock: nat) | Go

  datatype Event = Event(thread: nat, action: Action)

  /** One access of a thread to the flag of the lock it is busy with. */
  function Advance(flag: int, p: Phase): (int, Phase) {
    match p
    case WSpin => (flag, if WriteBits(flag) != 0 then WSpin else WAdd)
    case WAdd => var f := Add32(flag, LF_WRITE_FLAG); (f, if WriteBits(f) == LF_WRITE_FLAG then WDrain else WBack)
    case WBack => (Add32(flag, -LF_WRITE_FLAG), WSpin)
    case WDrain => (flag, if ReadBits(flag) != 0 then WDrain else WInside)
    case WLeaving => (Add32(flag, -LF_WRITE_FLAG), Outside)
    case RSpin => (flag, if WriteBits(flag) != 0 then RSpin else RAdd)
    case RAdd => var f := Add32(flag, 1); (f, if WriteBits(f) == 0 then RInside else RBack)
    case RBack => (Add32(flag, -1), RSpin)
    case RLeaving => (Add32(flag, -1), Outside)
    case _ => (flag, p)
  }

  /** Thread `t` moves lock `l` to phase `p` with flag `flag`. */
  function Moved(s: State, t: nat, l: nat, p: Phase, flag: int, stack: seq<nat>): State
    requires t < |s.threads| && l < |s.flags| && l < |s.threads[t].phases|
  {
    var th := Thread(s.threads[t].phases[l := p], if Settled(p) then None else Some(l), stack);
    s.(flags := s.flags[l := flag], threads := s.threads[t := th])
  }

  function Enter(s: State, t: nat, l: nat, p: Phase): State
    requires t < |s.threads| && l < |s.orders| && l < |s.flags| && l < |s.threads[t].phases|
  {
    var th := s.threads[t];
    if s.orders[l] != LO_DONT_CARE then
      if PushAllowed(s.orders, th.stack, l) then Moved(s, t, l, p, s.flags[l], th.stack + [l])
      else s.(crashed := true)
    else if th.phases[l] == Outside then Moved(s, t, l, p, s.flags[l], th.stack)
    else s
  }

  function Exit(s: State, t: nat, l: nat): State
    requires t < |s.threads| && l < |s.orders| && l < |s.flags| && l < |s.threads[t].phases|
  {
    var th := s.threads[t];
    var p := if th.phases[l] == WInside then WLeaving else RLeaving;
    if s.orders[l] != LO_DONT_CARE then
      if PopAllowed(th.stack, l) then Moved(s, t, l, p, s.flags[l], th.stack[..|th.stack| - 1])
      else s.(crashed := true)
    else Moved(s, t, l, p, s.flags[l], th.stack)
  }

  /** One atomic step; an event that is not possible now, or after a crash, changes nothing. */
  function Do(s: State, e: Event): State {
    if s.crashed || e.thread >= |s.threads| then s
    else
      var (t, th) := (e.thread, s.threads[e.thread]);
      match e.action
      case EnterWrite(l) =>
        if th.busy.None? && l < |s.orders| && l < |s.flags| && l < |th.phases| then Enter(s, t, l, WSpin) else s
      case EnterRead(l) =>
        if th.busy.None? && l < |s.orders| && l < |s.flags| && l < |th.phases| then Enter(s, t, l, RSpin) else s
      case Leave(l) =>
        if th.busy.None? && l < |s.orders| && l < |s.flags| && l < |th.phases| && th.phases[l] in {WInside, RInside} then
          Exit(s, t, l)
        else s
      case Go =>
        if th.busy.Some? && th.busy.value < |s.flags| && th.busy.value < |th.phases| then
          var l := th.busy.value;
          var (flag, p) := Advance(s.flags[l], th.phases[l]);
          Moved(s, t, l, p, flag, th.stack)
        else s
  }

  function Init(orders: seq<nat>, threads: nat): State {
    State(orders, seq(|orders|, _ => 0), seq(threads, _ => Thread(seq(|orders|, _ => Outside), None, [])), false)
  }

  function Exec(s: State, events: seq<Event>): State {
    if events == [] then s else Do(Exec(s, events[..|events| - 1]), events[|events| - 1])
  }

  // Counting the threads in a phase of a lock

  predicate InPhase(th: Thread, l: nat, ps: set<Phase>) {
    l < |th.phases| && th.phases[l] in ps
  }

  function Weight(l: nat, ps: set<Phase>): Thread -> nat {
    (th: Thread) => if InPhase(th, l, ps) then 1 else 0
  }

  function Count(s: State, l: nat, ps: set<Phase>): nat {
    Sum(s.threads, Weight(l, ps))
  }

  const ADDED_WRITE := {WBack, WDrain, WInside, WLeaving}
  const ADDED_READ := {RBack, RInside, RLeaving}
  const FIRST_WRITER := {WDrain, WInside, WLeaving}
  const WRITING := {WInside, WLeaving}
  const READING := {RInside, RLeaving}

  lemma CountMoved(s: State, t: nat, l: nat, p: Phase, flag: int, stack: seq<nat>, k: nat, ps: set<Phase>)
    requires t < |s.threads| && l < |s.flags| && l < |s.threads[t].phases|
    ensures var s' := Moved(s, t, l, p, flag, stack);
      if k == l then
        Count(s', k, ps) + (if s.threads[t].phases[l] in ps then 1 else 0) == Count(s, k, ps) + (if p in ps then 1 else 0)
      else Count(s', k, ps) == Count(s, k, ps)
  {
    var th := Moved(s, t, l, p, flag, stack).threads[t];
    SumUpdate(s.threads, Weight(k, ps), t, th);
  }

  lemma {:induction false} CountDisjoint(threads: seq<Thread>, l: nat, ps: set<Phase>, qs: set<Phase>)
    requires ps !! qs
    ensures Sum(threads, Weight(l, ps)) + Sum(threads, Weight(l, qs)) <= |threads|
    ensures Sum(threads, Weight(l, ps)) + Sum(threads, Weight(l, qs)) == Sum(threads, Weight(l, ps + qs))
  {
    if threads != [] {
      CountDisjoint(threads[1..], l, ps, qs);
    }
  }

  // The invariant

  /** Exactly the lock a thread is busy with is in a passing phase. */
  predicate ThreadShape(s: State, th: Thread) {
    && |th.phases| == |s.orders|
    && (th.busy.Some? ==> th.busy.value < |s.orders|)
    && forall k :: 0 <= k < |s.orders| ==> (!Settled(th.phases[k]) <==> th.busy == Some(k))
  }

  /** The checker's stack holds, in increasing order, the ordered locks entered or being entered. */
  predicate StackInv(orders: seq<nat>, th: Thread) {
    && |th.phases| == |orders| && Increasing(orders, th.stack)
    && (forall k :: 0 <= k < |orders| ==>
      (k in th.stack <==> orders[k] != LO_DONT_CARE && th.phases[k] !in {Outside, WLeaving, RLeaving}))
    && (th.busy.Some? && th.busy.value in th.stack ==> th.stack[|th.stack| - 1] == th.busy.value)
  }

  predicate Shaped(s: State) {
    && |s.flags| == |s.orders|
    && forall t :: 0 <= t < |s.threads| ==> ThreadShape(s, s.threads[t]) && StackInv(s.orders, s.threads[t])
  }

  /** The flag is the number of writers times 2^20 plus the number of readers that have added themselves. */
  predicate WordInv(s: State, l: nat) {
    l < |s.flags| && s.flags[l] == Word(Count(s, l, ADDED_WRITE), Count(s, l, ADDED_READ))
  }

  /** At most one thread got past the writer test, and no reader is inside together with a writer. */
  predicate ExclusionInv(s: State, l: nat) {
    && Count(s, l, FIRST_WRITER) <= 1
    && (Count(s, l, WRITING) == 0 || Count(s, l, READING) == 0)
  }

  predicate Inv(s: State) {
    && Shaped(s)
    && (forall l :: 0 <= l < |s.flags| ==> WordInv(s, l))
    && (|s.threads| <= 0x800 ==> forall l :: 0 <= l < |s.flags| ==> ExclusionInv(s, l))
  }

  /** The moves a thread makes on one lock. */
  predicate Transition(s: State, t: nat, l: nat, p: Phase, flag: int)
    requires t < |s.threads| && l < |s.flags| && l < |s.threads[t].phases|
  {
    var q := s.threads[t].phases[l];
    if Settled(q) then
      flag == s.flags[l] && ((q == Outside && p in {WSpin, RSpin}) || (q == WInside && p == WLeaving) || (q == RInside && p == RLeaving))
    else
      (flag, p) == Advance(s.flags[l], q)
  }

  lemma CountParts(s: State, l: nat)
    ensures Count(s, l, ADDED_WRITE) + Count(s, l, ADDED_READ) <= |s.threads|
    ensures Count(s, l, WRITING) <= Count(s, l, FIRST_WRITER) <= Count(s, l, ADDED_WRITE)
    ensures Count(s, l, READING) <= Count(s, l, ADDED_READ)
  {
    CountDisjoint(s.threads, l, ADDED_WRITE, ADDED_READ);
    CountDisjoint(s.threads, l, FIRST_WRITER, {WBack});
    assert FIRST_WRITER + {WBack} == ADDED_WRITE;
    CountDisjoint(s.threads, l, WRITING, {WDrain});
    assert WRITING + {WDrain} == FIRST_WRITER;
    CountDisjoint(s.threads, l, READING, {RBack});
    assert READING + {RBack} == ADDED_READ;
  }

  lemma CountsMoved(s: State, t: nat, l: nat, p: Phase, flag: int, stack: seq<nat>, k: nat)
    requires t < |s.threads| && l < |s.flags| && l < |s.threads[t].phases|
    ensures var (s', q) := (Moved(s, t, l, p, flag, stack), s.threads[t].phases[l]);
      forall ps :: ps in {ADDED_WRITE, ADDED_READ, FIRST_WRITER, WRITING, READING} ==>
        Count(s', k, ps) == if k == l then Count(s, k, ps) - (if q in ps then 1 else 0) + (if p in ps then 1 else 0) else Count(s, k, ps)
  {
    forall ps | ps in {ADDED_WRITE, ADDED_READ, FIRST_WRITER, WRITING, READING}
      ensures var (s', q) := (Moved(s, t, l, p, flag, stack), s.threads[t].phases[l]);
        Count(s', k, ps) == if k == l then Count(s, k, ps) - (if q in ps then 1 else 0) + (if p in ps then 1 else 0) else Count(s, k, ps)
    {
      CountMoved(s, t, l, p, flag, stack, k, ps);
    }
  }

  lemma MovedWord(s: State, t: nat, l: nat, p: Phase, flag: int, stack: seq<nat>)
    requires t < |s.threads| && l < |s.flags| && l < |s.threads[t].phases|
    requires Transition(s, t, l, p, flag) && WordInv(s, l)
    ensures WordInv(Moved(s, t, l, p, flag, stack), l)
  {
    hide Word, Add32, WriteBits, ReadBits, Count;
    CountsMoved(s, t, l, p, flag, stack, l);
    WordAdds(Count(s, l, ADDED_WRITE), Count(s, l, ADDED_READ));
  }

  lemma MovedExclusion(s: State, t: nat, l: nat, p: Phase, flag: int, stack: seq<nat>)
    requires t < |s.threads| <= 0x800 && l < |s.flags| && l < |s.threads[t].phases|
    requires Transition(s, t, l, p, flag) && WordInv(s, l) && ExclusionInv(s, l)
    ensures ExclusionInv(Moved(s, t, l, p, flag, stack), l)
  {
    hide Word, Add32, WriteBits, ReadBits, Count;
    var s' := Moved(s, t, l, p, flag, stack);
    CountsMoved(s, t, l, p, flag, stack, l);
    CountParts(s, l);
    CountParts(s', l);
    WordAdds(Count(s, l, ADDED_WRITE), Count(s, l, ADDED_READ));
    WordBits(Count(s, l, ADDED_WRITE), Count(s, l, ADDED_READ));
    WordBits(Count(s, l, ADDED_WRITE) + 1, Count(s, l, ADDED_READ));
    WordBits(Count(s, l, ADDED_WRITE), Count(s, l, ADDED_READ) + 1);
  }

  lemma MovedKeeps(s: State, t: nat, l: nat, p: Phase, flag: int, stack: seq<nat>)
    requires Inv(s) && t < |s.threads| && l < |s.flags| && l < |s.threads[t].phases|
    requires Transition(s, t, l, p, flag)
    requires var th := Moved(s, t, l, p, flag, stack).threads[t]; ThreadShape(s, th) && StackInv(s.orders, th)
    ensures Inv(Moved(s, t, l, p, flag, stack))
  {
    hide Word, Add32, WriteBits, ReadBits, Count, Advance, Transition, StackInv;
    var s' := Moved(s, t, l, p, flag, stack);
    forall k | 0 <= k < |s'.flags|
      ensures WordInv(s', k) && (|s.threads| <= 0x800 ==> ExclusionInv(s', k))
    {
      CountsMoved(s, t, l, p, flag, stack, k);
      if k == l {
        MovedWord(s, t, l, p, flag, stack);
        if |s.threads| <= 0x800 {
          MovedExclusion(s, t, l, p, flag, stack);
        }
      } else {
        assert WordInv(s, k);
        assert |s.threads| <= 0x800 ==> ExclusionInv(s, k);
      }
    }
  }

  /** A lock that may be pushed is not on the stack, so an idle thread is outside it. */
  lemma PushedFromOutside(s: State, th: Thread, l: nat)
    requires ThreadShape(s, th) && StackInv(s.orders, th) && l < |s.orders| && th.busy.None?
    requires s.orders[l] != LO_DONT_CARE && PushAllowed(s.orders, th.stack, l)
    ensures th.phases[l] == Outside
  {
    PushKeepsIncreasing(s.orders, th.stack, l);
    hide Increasing, PushAllowed;
  }

  /** An idle thread that goes for an unordered lock leaves the stack alone. */
  lemma EnterFree(s: State, th: Thread, l: nat, p: Phase)
    requires ThreadShape(s, th) && StackInv(s.orders, th) && l < |s.orders| && th.busy.None? && p in {WSpin, RSpin}
    requires s.orders[l] == LO_DONT_CARE
    ensures var now := Thread(th.phases[l := p], Some(l), th.stack); ThreadShape(s, now) && StackInv(s.orders, now)
  {
    hide Increasing;
  }

  /** An idle thread that goes for an ordered lock pushes it. */
  lemma EnterOrdered(s: State, th: Thread, l: nat, p: Phase)
    requires ThreadShape(s, th) && StackInv(s.orders, th) && l < |s.orders| && th.busy.None? && p in {WSpin, RSpin}
    requires s.orders[l] != LO_DONT_CARE && PushAllowed(s.orders, th.stack, l)
    ensures var now := Thread(th.phases[l := p], Some(l), th.stack + [l]); ThreadShape(s, now) && StackInv(s.orders, now)
  {
    PushKeepsIncreasing(s.orders, th.stack, l);
    hide Increasing, PushAllowed;
    var now := Thread(th.phases[l := p], Some(l), th.stack + [l]);
    forall k | 0 <= k < |s.orders|
      ensures k in now.stack <==> s.orders[k] != LO_DONT_CARE && now.phases[k] !in {Outside, WLeaving, RLeaving}
    {
      assert k in th.stack <==> s.orders[k] != LO_DONT_CARE && th.phases[k] !in {Outside, WLeaving, RLeaving};
    }
  }

  lemma EnterKeeps(s: State, t: nat, l: nat, p: Phase)
    requires Inv(s) && t < |s.threads| && l < |s.orders| && s.threads[t].busy.None? && p in {WSpin, RSpin}
    ensures Inv(Enter(s, t, l, p))
  {
    hide WordInv, ExclusionInv, StackInv, PushAllowed;
    var th := s.threads[t];
    assert ThreadShape(s, th) && StackInv(s.orders, th);
    if s.orders[l] != LO_DONT_CARE {
      if PushAllowed(s.orders, th.stack, l) {
        PushedFromOutside(s, th, l);
        EnterOrdered(s, th, l, p);
        MovedKeeps(s, t, l, p, s.flags[l], th.stack + [l]);
      } else {
        InvIgnoresCrash(s, true);
      }
    } else if th.phases[l] == Outside {
      EnterFree(s, th, l, p);
      MovedKeeps(s, t, l, p, s.flags[l], th.stack);
    }
  }

  lemma InvIgnoresCrash(s: State, crashed: bool)
    requires Inv(s)
    ensures Inv(s.(crashed := crashed))
  {
    var s' := s.(crashed := crashed);
    assert forall l, ps :: Count(s', l, ps) == Count(s, l, ps);
    forall l | 0 <= l < |s'.flags|
      ensures WordInv(s', l) && (|s.threads| <= 0x800 ==> ExclusionInv(s', l))
    {
      assert WordInv(s, l);
      assert |s.threads| <= 0x800 ==> ExclusionInv(s, l);
    }
    forall t | 0 <= t < |s'.threads|
      ensures ThreadShape(s', s'.threads[t]) && StackInv(s'.orders, s'.threads[t])
    {
      assert ThreadShape(s, s.threads[t]) && StackInv(s.orders, s.threads[t]);
    }
  }

  lemma PopKeepsOthers(orders: seq<nat>, stack: seq<nat>, l: nat)
    requires Increasing(orders, stack) && PopAllowed(stack, l)
    ensures var rest := stack[..|stack| - 1];
      Increasing(orders, rest) && forall k :: k in rest <==> k in stack && k != l
  {
    var rest := stack[..|stack| - 1];
    assert stack == rest + [l];
    forall i | 0 <= i < |rest|
      ensures rest[i] != l
    {
      assert orders[stack[i]] < orders[stack[|rest|]];
    }
  }

  lemma ExitKeeps(s: State, t: nat, l: nat)
    requires Inv(s) && t < |s.threads| && l < |s.orders| && s.threads[t].busy.None?
    requires s.threads[t].phases[l] in {WInside, RInside}
    ensures Inv(Exit(s, t, l))
  {
    hide WordInv, ExclusionInv, Increasing;
    var th := s.threads[t];
    assert ThreadShape(s, th) && StackInv(s.orders, th);
    var p := if th.phases[l] == WInside then WLeaving else RLeaving;
    if s.orders[l] != LO_DONT_CARE {
      if PopAllowed(th.stack, l) {
        var rest := th.stack[..|th.stack| - 1];
        PopKeepsOthers(s.orders, th.stack, l);
        assert StackInv(s.orders, Moved(s, t, l, p, s.flags[l], rest).threads[t]);
        MovedKeeps(s, t, l, p, s.flags[l], rest);
      } else {
        InvIgnoresCrash(s, true);
      }
    } else {
      MovedKeeps(s, t, l, p, s.flags[l], th.stack);
    }
  }

  lemma GoKeeps(s: State, t: nat, l: nat)
    requires Inv(s) && t < |s.threads| && s.threads[t].busy == Some(l)
    ensures l < |s.flags| && l < |s.threads[t].phases|
    ensures var (flag, p) := Advance(s.flags[l], s.threads[t].phases[l]); Inv(Moved(s, t, l, p, flag, s.threads[t].stack))
  {
    hide WordInv, ExclusionInv, Add32, WriteBits, ReadBits;
    assert ThreadShape(s, s.threads[t]) && StackInv(s.orders, s.threads[t]);
    var (flag, p) := Advance(s.flags[l], s.threads[t].phases[l]);
    MovedKeeps(s, t, l, p, flag, s.threads[t].stack);
  }

  lemma InvStep(s: State, e: Event)
    requires Inv(s)
    ensures Inv(Do(s, e))
  {
    hide Inv, Enter, Exit, Advance, Moved;
    if !s.crashed && e.thread < |s.threads| {
      var (t, th) := (e.thread, s.threads[e.thread]);
      match e.action
      case EnterWrite(l) =>
        if th.busy.None? && l < |s.orders| {
          EnterKeeps(s, t, l, WSpin);
        }
      case EnterRead(l) =>
        if th.busy.None? && l < |s.orders| {
          EnterKeeps(s, t, l, RSpin);
        }
      case Leave(l) =>
        if th.busy.None? && l < |s.orders| && l < |th.phases| && th.phases[l] in {WInside, RInside} {
          ExitKeeps(s, t, l);
        }
      case Go =>
        if th.busy.Some? {
          GoKeeps(s, t, th.busy.value);
        }
    }
  }

  lemma InitInv(orders: seq<nat>, threads: nat)
    ensures Inv(Init(orders, threads))
  {
    var s := Init(orders, threads);
    forall l | 0 <= l < |orders|
      ensures WordInv(s, l) && ExclusionInv(s, l)
    {
      SumZero(s.threads, Weight(l, ADDED_WRITE));
      SumZero(s.threads, Weight(l, ADDED_READ));
      SumZero(s.threads, Weight(l, FIRST_WRITER));
      SumZero(s.threads, Weight(l, WRITING));
    }
  }

  lemma {:induction false} AlwaysInv(orders: seq<nat>, threads: nat, events: seq<Event>)
    ensures Inv(Exec(Init(orders, threads), events))
    ensures |Exec(Init(orders, threads), events).threads| == threads
    ensures Exec(Init(orders, threads), events).orders == orders
  {
    hide Inv, Do;
    if events == [] {
      InitInv(orders, threads);
    } else {
      var front := events[..|events| - 1];
      AlwaysInv(orders, threads, front);
      InvStep(Exec(Init(orders, threads), front), events[|events| - 1]);
      DoShape(Exec(Init(orders, threads), front), events[|events| - 1]);
    }
  }

  lemma DoShape(s: State, e: Event)
    ensures |Do(s, e).threads| == |s.threads| && Do(s, e).orders == s.orders
  {
  }

  // Reader/writer exclusion

  predicate Holds(s: State, t: nat, l: nat, p: Phase) {
    t < |s.threads| && l < |s.threads[t].phases| && s.threads[t].phases[l] == p
  }

  /** A writer inside lock `l` is alone: no other writer and no reader is inside. */
  ghost predicate Exclusive(s: State, l: nat) {
    forall t: nat, u: nat :: Holds(s, t, l, WInside) && t != u ==> !Holds(s, u, l, WInside) && !Holds(s, u, l, RInside)
  }

  lemma InvExcludes(s: State, l: nat)
    requires ExclusionInv(s, l)
    ensures Exclusive(s, l)
  {
    forall t: nat, u: nat | Holds(s, t, l, WInside) && t != u
      ensures !Holds(s, u, l, WInside) && !Holds(s, u, l, RInside)
    {
      SumMember(s.threads, Weight(l, WRITING), t);
      if Holds(s, u, l, WInside) {
        SumTwoMembers(s.threads, Weight(l, FIRST_WRITER), if t < u then t else u, if t < u then u else t);
      }
      if Holds(s, u, l, RInside) {
        SumMember(s.threads, Weight(l, READING), u);
      }
    }
  }

  /** With at most 2048 threads every lock excludes, in every run, transient adds and wrap-around included. */
  lemma WritersExclude(orders: seq<nat>, threads: nat, events: seq<Event>, l: nat)
    requires threads <= 0x800 && l < |orders|
    ensures Exclusive(Exec(Init(orders, threads), events), l)
  {
    AlwaysInv(orders, threads, events);
    InvExcludes(Exec(Init(orders, threads), events), l);
  }

  /** A lock nobody is inside, draining, leaving or backing off from has flag zero: no add is ever left behind. */
  lemma FlagRestored(orders: seq<nat>, threads: nat, events: seq<Event>, l: nat)
    requires l < |orders|
    requires var s := Exec(Init(orders, threads), events);
      forall t :: 0 <= t < |s.threads| ==> InPhase(s.threads[t], l, {Outside, WSpin, WAdd, RSpin, RAdd})
    ensures var s := Exec(Init(orders, threads), events); l < |s.flags| && s.flags[l] == 0
  {
    hide *;
    AlwaysInv(orders, threads, events);
    QuietFlag(Exec(Init(orders, threads), events), l);
  }

  lemma QuietFlag(s: State, l: nat)
    requires Inv(s) && l < |s.orders|
    requires forall t :: 0 <= t < |s.threads| ==> InPhase(s.threads[t], l, {Outside, WSpin, WAdd, RSpin, RAdd})
    ensures l < |s.flags| && s.flags[l] == 0
  {
    hide Word, WriteBits, StackInv, ThreadShape, ExclusionInv;
    assert WordInv(s, l);
    SumZero(s.threads, Weight(l, ADDED_WRITE));
    SumZero(s.threads, Weight(l, ADDED_READ));
    EmptyWord();
  }

  // Deadlock freedom of ordered locks

  /** Thread `t` is stuck on an ordered lock: the flag makes it spin. */
  predicate Blocked(s: State, t: nat) {
    && !s.crashed && t < |s.threads| && s.threads[t].busy.Some?
    && var l := s.threads[t].busy.value;
      && l < |s.orders| && l < |s.flags| && l < |s.threads[t].phases| && s.orders[l] != LO_DONT_CARE
      && var p := s.threads[t].phases[l];
        || (p in {WSpin, RSpin} && WriteBits(s.flags[l]) != 0)
        || (p == WDrain && ReadBits(s.flags[l]) != 0)
  }

  /** The phases whose share of the flag `t` waits to see gone. */
  function AwaitedPhases(p: Phase): set<Phase> {
    if p == WDrain then ADDED_READ else ADDED_WRITE
  }

  predicate WaitsFor(s: State, t: nat, u: nat) {
    Blocked(s, t) && t != u && u < |s.threads|
    && var l := s.threads[t].busy.value; InPhase(s.threads[u], l, AwaitedPhases(s.threads[t].phases[l]))
  }

  /** Order class of the lock waited for, and within it spinning before draining. */
  function Rank(s: State, t: nat): nat
    requires Blocked(s, t)
  {
    var l := s.threads[t].busy.value;
    2 * s.orders[l] + if s.threads[t].phases[l] == WDrain then 1 else 0
  }

  /** A blocked thread waits for some thread. */
  lemma BlockedByOne(s: State, t: nat) returns (u: nat)
    requires Inv(s) && |s.threads| < 0x10_0000 && Blocked(s, t)
    ensures WaitsFor(s, t, u)
  {
    hide WriteBits, ReadBits, Word;
    var l := s.threads[t].busy.value;
    var ps := AwaitedPhases(s.threads[t].phases[l]);
    CountParts(s, l);
    assert WordInv(s, l);
    WordBits(Count(s, l, ADDED_WRITE), Count(s, l, ADDED_READ));
    assert WriteBits(Word(0, Count(s, l, ADDED_READ))) == 0 by {
      WordBits(0, Count(s, l, ADDED_READ));
    }
    u := SumWitness(s.threads, Weight(l, ps));
  }

  /** Whoever is waited for, if it waits itself, waits at a higher rank. */
  lemma RankRises(s: State, t: nat, u: nat)
    requires Inv(s) && WaitsFor(s, t, u) && Blocked(s, u)
    ensures Rank(s, t) < Rank(s, u)
  {
    var (l, k) := (s.threads[t].busy.value, s.threads[u].busy.value);
    assert ThreadShape(s, s.threads[u]) && StackInv(s.orders, s.threads[u]);
    if k != l {
      var stack := s.threads[u].stack;
      assert l in stack && k in stack && stack[|stack| - 1] == k;
      var i :| 0 <= i < |stack| && stack[i] == l;
      assert s.orders[stack[i]] < s.orders[stack[|stack| - 1]];
    }
  }

  predicate WaitChain(s: State, chain: seq<nat>) {
    forall i :: 0 <= i < |chain| - 1 ==> WaitsFor(s, chain[i], chain[i + 1])
  }

  lemma {:induction false} ChainRises(s: State, chain: seq<nat>, n: nat)
    requires Inv(s) && WaitChain(s, chain) && 0 < n < |chain| && Blocked(s, chain[|chain| - 1])
    ensures Blocked(s, chain[0]) && Blocked(s, chain[n])
    ensures Rank(s, chain[0]) < Rank(s, chain[n])
  {
    assert WaitsFor(s, chain[n - 1], chain[n]);
    if n < |chain| - 1 {
      assert WaitsFor(s, chain[n], chain[n + 1]);
    }
    RankRises(s, chain[n - 1], chain[n]);
    if n > 1 {
      ChainRises(s, chain, n - 1);
    }
  }

  /** In no run is there a cycle of threads each waiting for the next over ordered locks. */
  lemma NoWaitCycle(orders: seq<nat>, threads: nat, events: seq<Event>, chain: seq<nat>)
    requires |chain| >= 2 && chain[0] == chain[|chain| - 1]
    ensures !WaitChain(Exec(Init(orders, threads), events), chain)
  {
    var s := Exec(Init(orders, threads), events);
    AlwaysInv(orders, threads, events);
    if WaitChain(s, chain) {
      assert WaitsFor(s, chain[0], chain[1]);
      ChainRises(s, chain, |chain| - 1);
      assert false;
    }
  }

  /** Following the waits from any blocked thread ends at one that is not stuck on an ordered lock. */
  lemma {:induction false} SomeoneCanMove(s: State, t: nat, top: nat) returns (u: nat)
    requires Inv(s) && |s.threads| < 0x10_0000 && Blocked(s, t)
    requires forall k :: 0 <= k < |s.orders| ==> s.orders[k] <= top
    ensures u < |s.threads| && !Blocked(s, u) && exists v :: WaitsFor(s, v, u)
    decreases 2 * top + 1 - Rank(s, t)
  {
    u := BlockedByOne(s, t);
    if Blocked(s, u) {
      RankRises(s, t, u);
      u := SomeoneCanMove(s, u, top);
    }
  }

  function MaxOrder(orders: seq<nat>): (top: nat)
    ensures forall k :: 0 <= k < |orders| ==> orders[k] <= top
  {
    if orders == [] then 0
    else
      var rest := MaxOrder(orders[1..]);
      assert forall k :: 1 <= k < |orders| ==> orders[k] == orders[1..][k - 1];
      if rest < orders[0] then orders[0] else rest
  }

  /** In every run, if any thread is stuck on an ordered lock, some thread that others wait for is not. */
  lemma DeadlockFree(orders: seq<nat>, threads: nat, events: seq<Event>, t: nat)
    requires threads < 0x10_0000 && Blocked(Exec(Init(orders, threads), events), t)
    ensures var s := Exec(Init(orders, threads), events);
      exists u, v :: WaitsFor(s, v, u) && !Blocked(s, u)
  {
    AlwaysInv(orders, threads, events);
    var u := SomeoneCanMove(Exec(Init(orders, threads), events), t, MaxOrder(orders));
  }

  // The bound on the number of threads is exact

  /** All locks free but lock `l`, with one phase of it for each thread. */
  function Solo(orders: seq<nat>, l: nat, phases: seq<Phase>, flag: int): State
    requires l < |orders|
  {
    State(orders, seq(|orders|, k => if k == l then flag else 0),
      seq(|phases|, i requires 0 <= i < |phases| => SoloThread(orders, l, phases[i])), false)
  }

  function SoloThread(orders: seq<nat>, l: nat, p: Phase): Thread
    requires l < |orders|
  {
    Thread(seq(|orders|, k => if k == l then p else Outside), if Settled(p) then None else Some(l),
      if orders[l] != LO_DONT_CARE && p !in {Outside, WLeaving, RLeaving} then [l] else [])
  }

  lemma SoloGo(orders: seq<nat>, l: nat, phases: seq<Phase>, flag: int, t: nat)
    requires l < |orders| && t < |phases| && !Settled(phases[t])
    ensures var (f, p) := Advance(flag, phases[t]);
      Do(Solo(orders, l, phases, flag), Event(t, Go)) == Solo(orders, l, phases[t := p], f)
  {
    var (f, p) := Advance(flag, phases[t]);
    assert p in {Outside, WLeaving, RLeaving} <==> phases[t] in {WLeaving, RLeaving};
    hide Advance;
    var (s, s') := (Solo(orders, l, phases, flag), Solo(orders, l, phases[t := p], f));
    assert s.threads[t] == SoloThread(orders, l, phases[t]);
    assert s.threads[t].phases[l := p] == SoloThread(orders, l, p).phases;
    assert Do(s, Event(t, Go)).flags == s'.flags;
    assert Do(s, Event(t, Go)).threads == s'.threads;
  }

  /** An empty stack lets any lock be entered. */
  lemma SoloEnter(orders: seq<nat>, l: nat, phases: seq<Phase>, flag: int, t: nat)
    requires l < |orders| && t < |phases| && phases[t] == Outside
    ensures Do(Solo(orders, l, phases, flag), Event(t, EnterWrite(l))) == Solo(orders, l, phases[t := WSpin], flag)
    ensures Do(Solo(orders, l, phases, flag), Event(t, EnterRead(l))) == Solo(orders, l, phases[t := RSpin], flag)
  {
    SoloEnterAs(orders, l, phases, flag, t, EnterWrite(l), WSpin);
    SoloEnterAs(orders, l, phases, flag, t, EnterRead(l), RSpin);
  }

  lemma SoloEnterAs(orders: seq<nat>, l: nat, phases: seq<Phase>, flag: int, t: nat, action: Action, p: Phase)
    requires l < |orders| && t < |phases| && phases[t] == Outside
    requires (action, p) in {(EnterWrite(l), WSpin), (EnterRead(l), RSpin)}
    ensures Do(Solo(orders, l, phases, flag), Event(t, action)) == Solo(orders, l, phases[t := p], flag)
  {
    var (s, s') := (Solo(orders, l, phases, flag), Solo(orders, l, phases[t := p], flag));
    assert s.threads[t] == SoloThread(orders, l, Outside);
    assert s.threads[t].phases[l := p] == SoloThread(orders, l, p).phases;
    assert [] + [l] == [l];
    assert Do(s, Event(t, action)).flags == s'.flags;
    assert Do(s, Event(t, action)).threads == s'.threads;
  }

  lemma ExecNext(s: State, events: seq<Event>, e: Event)
    ensures Exec(s, events + [e]) == Do(Exec(s, events), e)
  {
    assert (events + [e])[..|events|] == events;
  }

  lemma WrapSmall(x: nat)
    requires x < 0x8000_0000
    ensures Wrap32(x) == x
  {
  }

  lemma EmptyWord()
    ensures Word(0, 0) == 0 && WriteBits(0) == 0
  {
    WordBits(0, 0);
    WrapSmall(0);
  }

  function Rest(n: nat): seq<Phase> {
    seq(n, _ => Outside)
  }

  function All(n: nat, p: Phase): seq<Phase> {
    seq(n, _ => p)
  }

  lemma OneMoreWaits(n: nat, t: nat)
    requires t < n
    ensures var phases := All(t, WAdd) + Rest(n - t);
      && |phases| == n && phases[t] == Outside
      && phases[t := WSpin][t := WAdd] == All(t + 1, WAdd) + Rest(n - (t + 1))
  {
  }

  lemma SoloInit(orders: seq<nat>, l: nat, n: nat)
    requires l < |orders|
    ensures Exec(Init(orders, n), []) == Solo(orders, l, All(0, WAdd) + Rest(n), 0)
  {
    assert All(0, WAdd) + Rest(n) == Rest(n);
    var (s, r) := (Init(orders, n), Solo(orders, l, Rest(n), 0));
    assert seq(|orders|, _ => Outside) == SoloThread(orders, l, Outside).phases;
    assert forall i :: 0 <= i < n ==> s.threads[i] == SoloThread(orders, l, Outside) == r.threads[i];
    assert s.flags == r.flags && s.threads == r.threads;
  }

  /** The first `k` threads have all seen the writer bits clear before any of them adds. */
  lemma {:induction false} EveryoneSeesItClear(orders: seq<nat>, l: nat, n: nat, k: nat) returns (events: seq<Event>)
    requires l < |orders| && k <= n
    decreases k
    ensures Exec(Init(orders, n), events) == Solo(orders, l, All(k, WAdd) + Rest(n - k), 0)
  {
    hide Exec, Do, Init, Solo, All, Rest;
    if k == 0 {
      events := [];
      SoloInit(orders, l, n);
    } else {
      events := EveryoneSeesItClear(orders, l, n, k - 1);
      OneMoreRun(orders, l, Init(orders, n), events, n, k - 1);
      events := events + [Event(k - 1, EnterWrite(l))] + [Event(k - 1, Go)];
    }
  }

  lemma OneMoreRun(orders: seq<nat>, l: nat, s: State, events: seq<Event>, n: nat, t: nat)
    requires l < |orders| && t < n && Exec(s, events) == Solo(orders, l, All(t, WAdd) + Rest(n - t), 0)
    ensures Exec(s, events + [Event(t, EnterWrite(l))] + [Event(t, Go)]) == Solo(orders, l, All(t + 1, WAdd) + Rest(n - (t + 1)), 0)
  {
    hide Exec, Do, Solo, All, Rest, Advance;
    var phases := All(t, WAdd) + Rest(n - t);
    OneMoreWaits(n, t);
    ExecNext(s, events, Event(t, EnterWrite(l)));
    SoloEnter(orders, l, phases, 0, t);
    ExecNext(s, events + [Event(t, EnterWrite(l))], Event(t, Go));
    SoloGo(orders, l, phases[t := WSpin], 0, t);
    ClearFlagPasses();
  }

  lemma ClearFlagPasses()
    ensures Advance(0, WSpin) == (0, WAdd)
  {
    EmptyWord();
  }

  /** Then the first is inside and the next `k` have added themselves and are about to back off. */
  lemma {:induction false} OthersAdd(orders: seq<nat>, l: nat, n: nat, k: nat) returns (events: seq<Event>)
    requires l < |orders| && k < 0x800 && n >= 0x801
    ensures Exec(Init(orders, n), events)
      == Solo(orders, l, [WInside] + All(k, WBack) + All(0x800 - k, WAdd) + Rest(n - 0x801), Word(k + 1, 0))
  {
    hide Exec, Do, Word, WriteBits, ReadBits, Add32;
    var s := Init(orders, n);
    WordAdds(k, 0);
    WordBits(k + 1, 0);
    if k == 0 {
      events := EveryoneSeesItClear(orders, l, n, 0x801);
      var phases := All(0x801, WAdd) + Rest(n - 0x801);
      EmptyWord();
      ExecNext(s, events, Event(0, Go));
      SoloGo(orders, l, phases, 0, 0);
      ExecNext(s, events + [Event(0, Go)], Event(0, Go));
      SoloGo(orders, l, phases[0 := WDrain], Word(1, 0), 0);
      events := events + [Event(0, Go)] + [Event(0, Go)];
      assert phases[0 := WDrain][0 := WInside] == [WInside] + All(0, WBack) + All(0x800, WAdd) + Rest(n - 0x801);
    } else {
      events := OthersAdd(orders, l, n, k - 1);
      var phases := [WInside] + All(k - 1, WBack) + All(0x801 - k, WAdd) + Rest(n - 0x801);
      ExecNext(s, events, Event(k, Go));
      SoloGo(orders, l, phases, Word(k, 0), k);
      events := events + [Event(k, Go)];
      assert phases[k := WBack] == [WInside] + All(k, WBack) + All(0x800 - k, WAdd) + Rest(n - 0x801);
    }
  }

  /** The last one adds the 2049th unit, reads one writer, and enters as well. */
  lemma TwoWriters(orders: seq<nat>, l: nat, n: nat) returns (events: seq<Event>)
    requires l < |orders| && n >= 0x801
    ensures !Exclusive(Exec(Init(orders, n), events), l)
  {
    hide Exec, Do, Word, WriteBits, ReadBits, Add32;
    var s := Init(orders, n);
    events := OthersAdd(orders, l, n, 0x7FF);
    var phases := [WInside] + All(0x7FF, WBack) + All(1, WAdd) + Rest(n - 0x801);
    WordAdds(0x800, 0);
    WordBits(0x801, 0);
    ExecNext(s, events, Event(0x800, Go));
    SoloGo(orders, l, phases, Word(0x800, 0), 0x800);
    ExecNext(s, events + [Event(0x800, Go)], Event(0x800, Go));
    SoloGo(orders, l, phases[0x800 := WDrain], Word(0x801, 0), 0x800);
    events := events + [Event(0x800, Go)] + [Event(0x800, Go)];
    SoloBothInside(orders, l, phases[0x800 := WDrain][0x800 := WInside], Word(0x801, 0));
  }

  lemma SoloBothInside(orders: seq<nat>, l: nat, phases: seq<Phase>, flag: int)
    requires l < |orders| && |phases| >= 0x801 && phases[0] == phases[0x800] == WInside
    ensures !Exclusive(Solo(orders, l, phases, flag), l)
  {
    var s := Solo(orders, l, phases, flag);
    assert Holds(s, 0, l, WInside) && Holds(s, 0x800, l, WInside);
  }

  /** For every lock of every set of locks, exclusion holds in every run exactly when there are at most 2048 threads. */
  lemma ExclusionExactly(orders: seq<nat>, l: nat, n: nat)
    requires l < |orders|
    ensures (forall events :: Exclusive(Exec(Init(orders, n), events), l)) <==> n <= 0x800
  {
    hide Exclusive, Exec;
    if n <= 0x800 {
      forall events
        ensures Exclusive(Exec(Init(orders, n), events), l)
      {
        WritersExclude(orders, n, events, l);
      }
    } else {
      var events := TwoWriters(orders, l, n);
    }
  }
}
