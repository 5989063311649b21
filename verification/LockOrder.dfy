/** The lock-order checker: a per-thread stack of the locks entered, which must be taken in increasing order. */
module LockOrder {

  const LO_DONT_CARE: nat := 0
  const MAX_LOCK_DEPTH: nat := 32

  /** Lock numbers on the stack, with the order class of each lock in `orders`. */
  predicate PushAllowed(orders: seq<nat>, stack: seq<nat>, lock: nat) {
    && |stack| < MAX_LOCK_DEPTH
    && lock < |orders|
    && (|stack| > 0 ==> stack[|stack| - 1] < |orders| && orders[stack[|stack| - 1]] < orders[lock])
  }

  predicate PopAllowed(stack: seq<nat>, lock: nat) {
    |stack| > 0 && stack[|stack| - 1] == lock
  }

  predicate Increasing(orders: seq<nat>, stack: seq<nat>) {
    && (forall i :: 0 <= i < |stack| ==> stack[i] < |orders|)
    && (forall i, j :: 0 <= i < j < |stack| ==> orders[stack[i]] < orders[stack[j]])
  }

  /** The test against the top of the stack alone keeps the whole stack strictly increasing. */
  lemma PushKeepsIncreasing(orders: seq<nat>, stack: seq<nat>, lock: nat)
    requires Increasing(orders, stack) && PushAllowed(orders, stack, lock)
    ensures Increasing(orders, stack + [lock])
    ensures lock !in stack
  {
    if |stack| > 0 {
      var top := |stack| - 1;
      forall i | 0 <= i < |stack|
        ensures orders[stack[i]] < orders[lock]
      {
        assert i < top ==> orders[stack[i]] < orders[stack[top]];
      }
    }
  }

  /** The test against the top decides against the whole stack: below the depth limit, above everything held. */
  lemma PushAllowedExactly(orders: seq<nat>, stack: seq<nat>, lock: nat)
    requires Increasing(orders, stack) && lock < |orders|
    ensures PushAllowed(orders, stack, lock)
      <==> |stack| < 32 && forall i :: 0 <= i < |stack| ==> orders[stack[i]] < orders[lock]
  {
    if PushAllowed(orders, stack, lock) && |stack| > 0 {
      var top := |stack| - 1;
      forall i | 0 <= i < |stack|
        ensures orders[stack[i]] < orders[lock]
      {
        assert i < top ==> orders[stack[i]] < orders[stack[top]];
      }
    }
  }

  class LockOrderChecker {
    const orders: seq<nat>
    const lockStack: array<nat>
    var stackTopPos: nat

    ghost predicate Valid()
      reads this, lockStack
    {
      && lockStack.Length == MAX_LOCK_DEPTH
      && stackTopPos <= MAX_LOCK_DEPTH
      && Increasing(orders, Stack())
    }

    ghost function Stack(): seq<nat>
      reads this, lockStack
    {
      if stackTopPos <= lockStack.Length then lockStack[..stackTopPos] else []
    }

    constructor (orders: seq<nat>)
      ensures Valid() && fresh(lockStack) && this.orders == orders && Stack() == []
    {
      this.orders := orders;
      lockStack := new nat[MAX_LOCK_DEPTH](_ => 0);
      stackTopPos := 0;
    }

    /** `ok` is false where the source's assertion crashes the process. */
    method Push(lock: nat) returns (ok: bool)
      requires Valid() && lock < |orders|
      modifies this`stackTopPos, lockStack
      ensures Valid()
      ensures ok <==>
        && |old(Stack())| < 32
        && forall i :: 0 <= i < |old(Stack())| ==> orders[old(Stack())[i]] < orders[lock]
      ensures Stack() == if ok then old(Stack()) + [lock] else old(Stack())
    {
      PushAllowedExactly(orders, Stack(), lock);
      if !(stackTopPos < MAX_LOCK_DEPTH) {
        return false;
      }
      if stackTopPos > 0 {
        if !(orders[lockStack[stackTopPos - 1]] < orders[lock]) {
          return false;
        }
      }
      PushKeepsIncreasing(orders, Stack(), lock);
      lockStack[stackTopPos] := lock;
      stackTopPos := stackTopPos + 1;
      assert Stack() == old(Stack()) + [lock];
      return true;
    }

    method Pop(lock: nat) returns (ok: bool)
      requires Valid()
      modifies this`stackTopPos, lockStack
      ensures Valid()
      ensures ok <==> exists rest :: old(Stack()) == rest + [lock]
      ensures if ok then old(Stack()) == Stack() + [lock] else Stack() == old(Stack())
    {
      if !(stackTopPos > 0) {
        return false;
      }
      if !(lockStack[stackTopPos - 1] == lock) {
        return false;
      }
      stackTopPos := stackTopPos - 1;
      lockStack[stackTopPos] := 0;
      assert old(Stack()) == Stack() + [lock];
      return true;
    }
  }
}
