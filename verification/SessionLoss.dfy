/**
 * Sessions that never come back to the pool: the issue reference is released only by a completed
 * disconnect, and in some runs nobody is left who could ask for one.
 */
module SessionLoss {
  import opened Counting
  import opened SessionPool

  /** Out of the pool, not on its way back, and nobody refers to it but the issue itself. */
  predicate Stranded(s: State, x: nat)
    requires x < |s.sessions|
  {
    x !in s.free && x !in s.returning && Live(s.contexts, x) == 0 && s.main != Issued(x)
  }

  lemma {:induction false} TokensAreLive(contexts: seq<Context>, x: nat)
    ensures Sum(contexts, TokenOf(x)) <= Sum(contexts, LiveOf(x))
  {
    if contexts != [] {
      TokensAreLive(contexts[1..], x);
    }
  }

  lemma StrandedAt(s: State, x: nat)
    requires Inv(s) && x < |s.sessions|
    ensures Stranded(s, x) <==> Live(s.contexts, x) == 0 && (s.sessions[x].connected || s.sessions[x].refused)
    ensures !(s.sessions[x].connected && s.sessions[x].refused)
  {
    assert SessionInv(s, x);
    TokensAreLive(s.contexts, x);
    assert x in s.free <==> multiset(s.free)[x] > 0;
  }

  /**
   * Exactly which sessions are lost: after every run, a session without live contexts is out of the pool for
   * nothing if and only if it is still connected, its chain of I/O having ended without a disconnect, or the
   * system refused its accept or its disconnect; never both.
   */
  lemma LostExactly(maxConnection: nat, events: seq<Event>, x: nat)
    requires x < maxConnection
    ensures |Exec(Init(maxConnection), events).sessions| == maxConnection
    ensures var s := Exec(Init(maxConnection), events);
      && (Stranded(s, x) <==> Live(s.contexts, x) == 0 && (s.sessions[x].connected || s.sessions[x].refused))
      && !(s.sessions[x].connected && s.sessions[x].refused)
  {
    hide Stranded, Inv, Exec;
    AlwaysInv(maxConnection, events);
    StrandedAt(Exec(Init(maxConnection), events), x);
  }

  // Lost sessions stay lost

  /** All contexts of the session are deleted. */
  predicate Quiet(contexts: seq<Context>, x: nat) {
    forall c :: 0 <= c < |contexts| && contexts[c].session == x ==> contexts[c].stage == Gone
  }

  lemma {:induction false} QuietIsNotLive(contexts: seq<Context>, x: nat)
    ensures Quiet(contexts, x) <==> Live(contexts, x) == 0
  {
    if Quiet(contexts, x) {
      SumZero(contexts, LiveOf(x));
    }
    forall c | 0 <= c < |contexts|
      ensures LiveOf(x)(contexts[c]) <= Live(contexts, x)
    {
      SumMember(contexts, LiveOf(x), c);
    }
  }

  /** What keeps a session lost: no context, the issue reference held, and not just issued. */
  predicate Abandoned(s: State, x: nat) {
    && x < |s.sessions| && Quiet(s.contexts, x) && s.main != Issued(x)
    && (s.sessions[x].connected || s.sessions[x].refused)
  }

  /** A step of a handler touches its own session only, and does not undo a refusal. */
  predicate Touches(s: State, s': State, y: nat) {
    && |s'.sessions| == |s.sessions| && (forall x :: 0 <= x < |s.sessions| && x != y ==> s'.sessions[x] == s.sessions[x])
    && (y < |s.sessions| && s.sessions[y].refused ==> s'.sessions[y].refused)
    && s'.main == s.main && |s.contexts| <= |s'.contexts|
    && (forall c :: 0 <= c < |s'.contexts| ==> (c < |s.contexts| && s'.contexts[c] == s.contexts[c]) || s'.contexts[c].session == y)
    && (forall c :: 0 <= c < |s.contexts| ==> s'.contexts[c].session == s.contexts[c].session)
  }

  lemma ConstructTouches(s: State, c: nat, kind: Kind, stage: Stage)
    requires c < |s.contexts| && s.contexts[c].session < |s.sessions|
    ensures var y := s.contexts[c].session; Touches(s, AtStage(Construct(s, y, kind, Handler(c)), c, stage), y)
  {
  }

  lemma ReleaseTouches(s: State, s1: State, y: nat)
    requires y < |s.sessions| && Touches(s, s1, y)
    ensures y < |s1.sessions| && Touches(s, Release(s1, y), y)
  {
  }

  lemma MoveTouches(s: State, c: nat, stage: Stage, session: Session)
    requires c < |s.contexts| && s.contexts[c].session < |s.sessions|
    requires session.refused == s.sessions[s.contexts[c].session].refused
    ensures var y := s.contexts[c].session; Touches(s, AtStage(s.(sessions := s.sessions[y := session]), c, stage), y)
    ensures var y := s.contexts[c].session; s.sessions[y := s.sessions[y]] == s.sessions
  {
  }

  lemma ChildTouches(s: State, c: nat, child: nat, one: Stage, other: Stage)
    requires c < |s.contexts| && child < |s.contexts| && s.contexts[child].session == s.contexts[c].session < |s.sessions|
    ensures Touches(s, AtStage(AtStage(s, child, one), c, other), s.contexts[c].session)
    ensures Touches(s, Dropped(s, c, child, other, s.contexts[c].session), s.contexts[c].session)
  {
  }

  lemma FlagTouches(s: State, c: nat, ok: bool)
    requires c < |s.contexts| && s.contexts[c].session < |s.sessions|
    requires s.contexts[c].stage.Accepting? || s.contexts[c].stage.TryPost? || s.contexts[c].stage.Closing?
    ensures Touches(s, HandleDo(s, c, ok), s.contexts[c].session)
  {
    var y := s.contexts[c].session;
    var session := s.sessions[y];
    assert Touches(s, s, y) && s.(sessions := s.sessions) == s;
    hide AtStage, Touches;
    match s.contexts[c].stage
    case Accepting =>
      MoveTouches(s, c, TryPost(PreRecv, false), session.(connected := true));
      MoveTouches(s, c, Closing, session.(connected := true));
    case TryPost(kind, closeOnFail) =>
      MoveTouches(s, c, AfterFailure(closeOnFail), session);
      MoveTouches(s, c, Deleting, session);
      MoveTouches(s, c, Constructing(kind, closeOnFail), session);
    case Closing =>
      MoveTouches(s, c, ConstructingClose, session.(connected := false));
      MoveTouches(s, c, Deleting, session.(connected := false));
  }

  lemma CallTouches(s: State, c: nat, ok: bool)
    requires c < |s.contexts| && s.contexts[c].session < |s.sessions| && Owned(s, c)
    requires s.contexts[c].stage.AwaitCall? || s.contexts[c].stage.DropChild?
    ensures Touches(s, HandleDo(s, c, ok), s.contexts[c].session)
  {
    var y := s.contexts[c].session;
    assert s.sessions[y := s.sessions[y]] == s.sessions && s.(sessions := s.sessions) == s;
    hide Release, AtStage, Touches, Dropped;
    match s.contexts[c].stage
    case AwaitCall(child, closeOnFail) =>
      ChildTouches(s, c, child, Pending, Deleting);
      MoveTouches(s, c, DropChild(child, closeOnFail), s.sessions[y]);
    case DropChild(child, closeOnFail) =>
      ChildTouches(s, c, child, Gone, AfterFailure(closeOnFail));
      ReleaseTouches(s, Dropped(s, c, child, AfterFailure(closeOnFail), y), y);
  }

  lemma ReferenceTouches(s: State, c: nat, ok: bool)
    requires c < |s.contexts| && s.contexts[c].session < |s.sessions|
    requires s.contexts[c].stage.Constructing? || s.contexts[c].stage in {ConstructingClose, ReleasingIssue, Deleting}
    ensures Touches(s, HandleDo(s, c, ok), s.contexts[c].session)
  {
    var y := s.contexts[c].session;
    assert s.sessions[y := s.sessions[y]] == s.sessions && s.(sessions := s.sessions) == s;
    hide Construct, Release, AtStage, Touches;
    match s.contexts[c].stage
    case Constructing(kind, closeOnFail) => ConstructTouches(s, c, kind, AwaitCall(|s.contexts|, closeOnFail));
    case ConstructingClose => ConstructTouches(s, c, Disconnect, AwaitCall(|s.contexts|, false));
    case ReleasingIssue =>
      MoveTouches(s, c, Deleting, s.sessions[y].(issueRef := false));
      ReleaseTouches(s, AtStage(s.(sessions := s.sessions[y := s.sessions[y].(issueRef := false)]), c, Deleting), y);
    case Deleting =>
      MoveTouches(s, c, Gone, s.sessions[y]);
      ReleaseTouches(s, AtStage(s, c, Gone), y);
  }

  lemma HandleTouches(s: State, c: nat, ok: bool)
    requires c < |s.contexts| && s.contexts[c].session < |s.sessions| && Owned(s, c)
    ensures Touches(s, HandleDo(s, c, ok), s.contexts[c].session)
  {
    match s.contexts[c].stage
    case Fresh(_) =>
    case Pending =>
    case Gone =>
    case Accepting => FlagTouches(s, c, ok);
    case TryPost(_, _) => FlagTouches(s, c, ok);
    case Closing => FlagTouches(s, c, ok);
    case AwaitCall(_, _) => CallTouches(s, c, ok);
    case DropChild(_, _) => CallTouches(s, c, ok);
    case _ => ReferenceTouches(s, c, ok);
  }

  lemma HandleAbandons(s: State, c: nat, ok: bool, x: nat)
    requires Inv(s) && Abandoned(s, x)
    ensures Abandoned(HandleDo(s, c, ok), x)
  {
    if c < |s.contexts| && s.contexts[c].stage != Gone {
      assert Owned(s, c);
      HandleTouches(s, c, ok);
      hide HandleDo, Inv;
    }
  }

  lemma MainAbandons(s: State, ok: bool, x: nat)
    requires Inv(s) && Abandoned(s, x) && x !in s.free
    ensures Abandoned(MainDo(s, ok), x)
  {
    hide SessionInv, Live, Tokens;
    if s.main.Drop? && s.main.context < |s.contexts| {
      assert Owned(s, s.main.context);
    }
  }

  lemma AbandonedStep(s: State, e: Event, x: nat)
    requires Inv(s) && Abandoned(s, x)
    ensures Abandoned(Do(s, e), x)
  {
    QuietIsNotLive(s.contexts, x);
    StrandedAt(s, x);
    hide Inv, MainDo, HandleDo, Live;
    match e
    case MainStep(ok) => MainAbandons(s, ok, x);
    case Complete(c, outcome) =>
    case Handle(c, ok) => HandleAbandons(s, c, ok, x);
    case Return(y) =>
  }

  lemma {:induction false} AbandonedForever(maxConnection: nat, events: seq<Event>, more: seq<Event>, x: nat)
    requires Abandoned(Exec(Init(maxConnection), events), x)
    ensures Abandoned(Exec(Init(maxConnection), events + more), x)
  {
    hide Abandoned, Inv, Do;
    if more == [] {
      assert events + more == events;
    } else {
      var front := more[..|more| - 1];
      AbandonedForever(maxConnection, events, front, x);
      AlwaysInv(maxConnection, events + front);
      AbandonedStep(Exec(Init(maxConnection), events + front), more[|more| - 1], x);
      assert (events + more)[..|events + more| - 1] == events + front;
    }
  }

  /** However the run goes on, a lost session never comes back to the pool. */
  lemma LostForever(maxConnection: nat, events: seq<Event>, more: seq<Event>, x: nat)
    requires x < maxConnection && |Exec(Init(maxConnection), events).sessions| == maxConnection
    requires Stranded(Exec(Init(maxConnection), events), x)
    ensures |Exec(Init(maxConnection), events + more).sessions| == maxConnection
    ensures Stranded(Exec(Init(maxConnection), events + more), x)
  {
    var s := Exec(Init(maxConnection), events);
    var s' := Exec(Init(maxConnection), events + more);
    LostExactly(maxConnection, events, x);
    QuietIsNotLive(s.contexts, x);
    AbandonedForever(maxConnection, events, more, x);
    LostExactly(maxConnection, events + more, x);
    QuietIsNotLive(s'.contexts, x);
  }

  /** A refused session carries its reference for ever, whatever contexts it still has. */
  lemma RefusedStays(s: State, e: Event, x: nat)
    requires Inv(s) && x < |s.sessions| && s.sessions[x].refused
    ensures Do(s, e).sessions[x].refused
  {
    hide SessionInv, Pooled, MainOwned;
    match e
    case MainStep(ok) => assert MainDo(s, ok).sessions[x].refused;
    case Complete(c, outcome) =>
    case Handle(c, ok) =>
      if c < |s.contexts| {
        assert Owned(s, c);
        HandleTouches(s, c, ok);
      }
    case Return(y) =>
  }

  lemma {:induction false} RefusedForever(maxConnection: nat, events: seq<Event>, more: seq<Event>, x: nat)
    requires x < maxConnection && |Exec(Init(maxConnection), events).sessions| == maxConnection
    requires Exec(Init(maxConnection), events).sessions[x].refused
    ensures var s := Exec(Init(maxConnection), events + more);
      |s.sessions| == maxConnection && s.sessions[x].refused && x !in s.free
  {
    hide Inv, Do;
    if more == [] {
      assert events + more == events;
    } else {
      var front := more[..|more| - 1];
      RefusedForever(maxConnection, events, front, x);
      AlwaysInv(maxConnection, events + front);
      RefusedStays(Exec(Init(maxConnection), events + front), more[|more| - 1], x);
      assert (events + more)[..|events + more| - 1] == events + front;
    }
    AlwaysInv(maxConnection, events + more);
    RefusedIsOut(Exec(Init(maxConnection), events + more), x);
  }

  lemma RefusedIsOut(s: State, x: nat)
    requires Inv(s) && x < |s.sessions| && s.sessions[x].refused
    ensures x !in s.free
  {
    assert SessionInv(s, x);
    assert x in s.free <==> multiset(s.free)[x] > 0;
  }

  // And they are lost in practice: a pool of one

  lemma ExecNext(events: seq<Event>, e: Event)
    ensures Exec(Init(1), events + [e]) == Do(Exec(Init(1), events), e)
  {
    hide Do;
    assert (events + [e])[..|events|] == events;
  }

  /** The only session is issued, and its accept is on its way. */
  lemma AcceptPosted() returns (events: seq<Event>)
    ensures Exec(Init(1), events)
      == State([Session(false, 2, true, false, 1, 0)], [Context(0, Accept, Fresh(Main))], [], multiset{}, 1, 0, Await(0), false)
  {
    hide Exec;
    var s1 := Init(1).(main := Loop);
    var s2 := State([Session(false, 1, true, false, 1, 0)], [], [], multiset{}, 1, 0, Issued(0), false);
    assert Exec(Init(1), []) == Init(1) by {
      NoEvents();
    }
    assert Init(1).sessions == [Session(false, 0, false, false, 0, 0)] && Init(1).free == [0];
    ExecNext([], MainStep(true));
    ExecNext([] + [MainStep(true)], MainStep(true));
    assert s1.free[..0] == [];
    assert Do(s1, MainStep(true)) == s2;
    events := [] + [MainStep(true)] + [MainStep(true)] + [MainStep(true)];
    ExecNext([] + [MainStep(true)] + [MainStep(true)], MainStep(true));
  }

  lemma NoEvents()
    ensures Exec(Init(1), []) == Init(1)
  {
  }

  /** The system refuses the accept: the session is lost and the accept loop stops. */
  lemma RefusedAcceptLoses()
    ensures exists events :: Stranded(Exec(Init(1), events), 0) && Exec(Init(1), events).sessions[0].refused
  {
    hide Exec;
    var events := AcceptPosted();
    ExecNext(events, MainStep(false));
    ExecNext(events + [MainStep(false)], MainStep(true));
    assert Stranded(Exec(Init(1), events + [MainStep(false)] + [MainStep(true)]), 0);
  }

  function Pool(session: Session, contexts: seq<Context>, main: MainPc): State {
    State([session], contexts, [], multiset{}, 1, 0, main, false)
  }

  lemma AcceptCompletes()
    ensures Do(Do(Do(
        Pool(Session(false, 2, true, false, 1, 0), [Context(0, Accept, Fresh(Main))], Await(0)),
        MainStep(true)), Complete(0, Full)), Handle(0, true))
      == Pool(Session(true, 2, true, false, 1, 0), [Context(0, Accept, TryPost(PreRecv, false))], Loop)
  {
  }

  lemma ReceiveRefused()
    ensures Do(Do(Do(
        Pool(Session(true, 2, true, false, 1, 0), [Context(0, Accept, TryPost(PreRecv, false))], Loop),
        Handle(0, true)), Handle(0, true)), Handle(0, false))
      == Pool(Session(true, 3, true, false, 1, 0),
        [Context(0, Accept, DropChild(1, false)), Context(0, PreRecv, Fresh(Handler(0)))], Loop)
  {
  }

  lemma ContextsDeleted()
    ensures Do(Do(Do(
        Pool(Session(true, 3, true, false, 1, 0),
          [Context(0, Accept, DropChild(1, false)), Context(0, PreRecv, Fresh(Handler(0)))], Loop),
        Handle(0, true)), Handle(0, true)), MainStep(true))
      == Pool(Session(true, 1, true, false, 1, 0), [Context(0, Accept, Gone), Context(0, PreRecv, Gone)], Idle)
  {
  }

  /** The first receive is refused after the accept: the handler only reports it, and the session is lost while connected. */
  lemma RefusedReceiveLoses()
    ensures exists events :: Stranded(Exec(Init(1), events), 0) && Exec(Init(1), events).sessions[0].connected
  {
    hide Exec, Do;
    var events := AcceptPosted();
    events := ThreeMore(events, MainStep(true), Complete(0, Full), Handle(0, true));
    AcceptCompletes();
    events := ThreeMore(events, Handle(0, true), Handle(0, true), Handle(0, false));
    ReceiveRefused();
    events := ThreeMore(events, Handle(0, true), Handle(0, true), MainStep(true));
    ContextsDeleted();
    assert Stranded(Exec(Init(1), events), 0);
  }

  lemma ThreeMore(events: seq<Event>, one: Event, two: Event, three: Event) returns (more: seq<Event>)
    ensures Exec(Init(1), more) == Do(Do(Do(Exec(Init(1), events), one), two), three)
  {
    hide Do, Exec;
    ExecNext(events, one);
    ExecNext(events + [one], two);
    ExecNext(events + [one] + [two], three);
    more := events + [one] + [two] + [three];
  }
}
