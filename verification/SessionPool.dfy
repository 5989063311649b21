/**
 * Sessions issued from and returned to a pool by I/O completions. Worker threads run the completion
 * handlers, the main thread runs the accept loop; every interlocked access, check of the connected flag,
 * construction or deletion of a context and system call is one atomic step.
 */
module SessionPool {
  import opened Counting

  datatype Kind = Accept | PreRecv | Recv | Send | Disconnect

  /** Who constructed a context and is waiting for its system call: the accept loop or another context's handler. */
  datatype Owner = Main | Handler(context: nat)

  /** How far a context and the handler of its completion have come. */
  datatype Stage =
    | Fresh(owner: Owner)                              // constructed, system call not answered yet
    | Pending                                          // accepted by the system
    | Accepting                                        // about to exchange the connected flag to 1
    | TryPost(kind: Kind, closeOnFail: bool)           // about to check the connected flag
    | Constructing(kind: Kind, closeOnFail: bool)      // about to construct the next context
    | AwaitCall(child: nat, closeOnFail: bool)
    | DropChild(child: nat, closeOnFail: bool)         // the call failed: about to delete the child
    | Closing                                          // DisconnectRequest: about to exchange the flag to 0
    | ConstructingClose                                // the flag was 1: about to construct the disconnect context
    | ReleasingIssue                                   // DisconnectCompletion: about to release the issue reference
    | Deleting                                         // about to delete its own context
    | Gone

  datatype Context = Context(session: nat, kind: Kind, stage: Stage)

  /**
   * `issueRef` tells whether the reference added at issue is still held, and `refused` whether the system
   * refused its accept or its disconnect; `issues` and `returnings` count over the run.
   */
  datatype Session = Session(connected: bool, refs: int, issueRef: bool, refused: bool, issues: nat, returnings: nat)

  /** The accept loop; it holds the manager's lock except when idle or stopped. */
  datatype MainPc = Idle | Loop | Issued(session: nat) | Await(context: nat) | Drop(context: nat) | Stopped

  datatype State = State(
    sessions: seq<Session>, contexts: seq<Context>, free: seq<nat>, returning: multiset<nat>,
    issueCount: nat, returnCount: nat, main: MainPc, crashed: bool)

  datatype Outcome = Failed | Partial | Full

  datatype Event =
    | MainStep(ok: bool)
    | Complete(context: nat, outcome: Outcome)   // a worker dequeues the completion
    | Handle(context: nat, ok: bool)             // the next step of its handler
    | Return(session: nat)                       // ReturnClientSession under the manager's lock

  function Staged(contexts: seq<Context>, c: nat, stage: Stage): seq<Context>
    requires c < |contexts|
  {
    contexts[c := contexts[c].(stage := stage)]
  }

  function Crash(s: State): State {
    s.(crashed := true)
  }

  /** AddRef with its assertion. */
  function AddRef(s: State, x: nat): (r: State)
    requires x < |s.sessions|
    ensures |r.sessions| == |s.sessions|
  {
    var ss := s.sessions[x];
    if ss.refs + 1 > 0 then s.(sessions := s.sessions[x := ss.(refs := ss.refs + 1)]) else Crash(s)
  }

  /** ReleaseRef: at zero the session goes to ReturnClientSession. */
  function Release(s: State, x: nat): (r: State)
    requires x < |s.sessions|
    ensures |r.sessions| == |s.sessions|
  {
    var ss := s.sessions[x];
    var s' := s.(sessions := s.sessions[x := ss.(refs := ss.refs - 1)]);
    if ss.refs - 1 < 0 then Crash(s)
    else if ss.refs - 1 == 0 then s'.(returning := s.returning + multiset{x})
    else s'
  }

  /** The system has refused an accept or a disconnect, and its context is deleted. */
  function Refuse(s: State, x: nat): (r: State)
    requires x < |s.sessions|
    ensures |r.sessions| == |s.sessions|
  {
    s.(sessions := s.sessions[x := s.sessions[x].(refused := true)])
  }

  /** A handler's child is deleted after a refused call. */
  function Dropped(s: State, c: nat, child: nat, next: Stage, x: nat): (r: State)
    requires c < |s.contexts| && child < |s.contexts| && x < |s.sessions|
    ensures |r.sessions| == |s.sessions|
  {
    var s1 := AtStage(AtStage(s, child, Gone), c, next);
    if s.contexts[child].kind == Disconnect then Refuse(s1, x) else s1
  }

  function AtStage(s: State, c: nat, stage: Stage): (r: State)
    requires c < |s.contexts|
    ensures |r.sessions| == |s.sessions|
  {
    s.(contexts := Staged(s.contexts, c, stage))
  }

  /** Construction of a context of session `x` adds a reference. */
  function Construct(s: State, x: nat, kind: Kind, owner: Owner): (r: State)
    requires x < |s.sessions|
    ensures |r.sessions| == |s.sessions|
  {
    AddRef(s.(contexts := s.contexts + [Context(x, kind, Fresh(owner))]), x)
  }

  /** One step of the accept loop of the main thread. */
  function MainDo(s: State, ok: bool): (r: State)
    ensures |r.sessions| == |s.sessions|
  {
    match s.main
    case Idle => s.(main := Loop)
    case Loop =>
      if s.issueCount - s.returnCount < |s.sessions| then
        if s.free == [] then Crash(s)
        else
          var x := s.free[|s.free| - 1];
          if x >= |s.sessions| then s
          else
            var s1 := AddRef(s.(free := s.free[..|s.free| - 1], issueCount := s.issueCount + 1, main := Issued(x)), x);
            s1.(sessions := s1.sessions[x := s1.sessions[x].(issueRef := true, issues := s1.sessions[x].issues + 1)])
      else s.(main := Idle)
    case Issued(x) =>
      if x < |s.sessions| then Construct(s, x, Accept, Main).(main := Await(|s.contexts|)) else s
    case Await(c) =>
      if c < |s.contexts| then
        if ok then AtStage(s, c, Pending).(main := Loop) else s.(main := Drop(c))
      else s
    case Drop(c) =>
      if c < |s.contexts| && s.contexts[c].session < |s.sessions| then
        var x := s.contexts[c].session;
        var s1 := Release(Refuse(AtStage(s, c, Gone), x), x);
        // returning the session from here would take the lock this thread already holds
        if s1.returning != s.returning then Crash(s) else s1.(main := Stopped)
      else s
    case Stopped => s
  }

  /** Dequeueing a completion: where its handler starts. */
  function CompleteDo(s: State, c: nat, outcome: Outcome): (r: State)
    ensures |r.sessions| == |s.sessions|
  {
    if c < |s.contexts| && s.contexts[c].stage == Pending then
      AtStage(s, c,
        match s.contexts[c].kind
        case Accept => Accepting
        case Disconnect => ReleasingIssue
        case PreRecv => TryPost(Recv, true)
        case Recv => if outcome == Failed then Closing else TryPost(Send, true)
        case Send => if outcome == Full then TryPost(PreRecv, true) else Closing)
    else s
  }

  function AfterFailure(closeOnFail: bool): Stage {
    if closeOnFail then Closing else Deleting
  }

  /** One step of the handler of context `c`; `ok` is the outcome of a call the model does not see into. */
  function HandleDo(s: State, c: nat, ok: bool): (r: State)
    ensures |r.sessions| == |s.sessions|
  {
    if c >= |s.contexts| || s.contexts[c].session >= |s.sessions| then s
    else
      var x := s.contexts[c].session;
      match s.contexts[c].stage
      case Accepting =>
        if s.sessions[x].connected then Crash(s)
        else
          var s1 := s.(sessions := s.sessions[x := s.sessions[x].(connected := true)]);
          AtStage(s1, c, if ok then TryPost(PreRecv, false) else Closing)
      case TryPost(kind, closeOnFail) =>
        if !s.sessions[x].connected then AtStage(s, c, AfterFailure(closeOnFail))
        else if kind == Recv && !ok then AtStage(s, c, AfterFailure(closeOnFail))   // no buffer space
        else if kind == Send && !ok then AtStage(s, c, Deleting)                    // nothing to send
        else AtStage(s, c, Constructing(kind, closeOnFail))
      case Constructing(kind, closeOnFail) =>
        AtStage(Construct(s, x, kind, Handler(c)), c, AwaitCall(|s.contexts|, closeOnFail))
      case AwaitCall(child, closeOnFail) =>
        if child < |s.contexts| then
          if ok then AtStage(AtStage(s, child, Pending), c, Deleting) else AtStage(s, c, DropChild(child, closeOnFail))
        else s
      case DropChild(child, closeOnFail) =>
        if child < |s.contexts| then Release(Dropped(s, c, child, AfterFailure(closeOnFail), x), x) else s
      case Closing =>
        var s1 := s.(sessions := s.sessions[x := s.sessions[x].(connected := false)]);
        AtStage(s1, c, if s.sessions[x].connected then ConstructingClose else Deleting)
      case ConstructingClose =>
        AtStage(Construct(s, x, Disconnect, Handler(c)), c, AwaitCall(|s.contexts|, false))
      case ReleasingIssue =>
        var s1 := s.(sessions := s.sessions[x := s.sessions[x].(issueRef := false)]);
        Release(AtStage(s1, c, Deleting), x)
      case Deleting => Release(AtStage(s, c, Gone), x)
      case _ => s
  }

  /** ReturnClientSession, with its assertion. */
  function ReturnDo(s: State, x: nat): (r: State)
    ensures |r.sessions| == |s.sessions|
  {
    if x < |s.sessions| && x in s.returning && s.main in {Idle, Stopped} then
      var ss := s.sessions[x];
      if ss.connected || ss.refs != 0 then Crash(s)
      else
        s.(sessions := s.sessions[x := ss.(connected := false, refs := 0, returnings := ss.returnings + 1)],
          free := s.free + [x], returning := s.returning - multiset{x}, returnCount := s.returnCount + 1)
    else s
  }

  /** One atomic step; an event that is not possible now, or after a crash, changes nothing. */
  function Do(s: State, e: Event): (r: State)
    ensures |r.sessions| == |s.sessions|
  {
    if s.crashed then s
    else
      match e
      case MainStep(ok) => MainDo(s, ok)
      case Complete(c, outcome) => CompleteDo(s, c, outcome)
      case Handle(c, ok) => HandleDo(s, c, ok)
      case Return(x) => ReturnDo(s, x)
  }

  /** PrepareSessions: a pool of unconnected sessions nobody refers to. */
  function Init(maxConnection: nat): State {
    State(seq(maxConnection, _ => Session(false, 0, false, false, 0, 0)), [], seq(maxConnection, i => i), multiset{},
      0, 0, Idle, false)
  }

  function Exec(s: State, events: seq<Event>): (r: State)
    ensures |r.sessions| == |s.sessions|
  {
    if events == [] then s else Do(Exec(s, events[..|events| - 1]), events[|events| - 1])
  }

  // The invariant

  /** A context that has been constructed and not deleted holds a reference to its session. */
  function LiveOf(x: nat): Context -> nat {
    (c: Context) => if c.session == x && c.stage != Gone then 1 else 0
  }

  /** Contexts that carry the session's one right to be connected or to release the issue reference. */
  predicate HasToken(c: Context) {
    || c.stage in {Accepting, ConstructingClose, ReleasingIssue}
    || ((c.stage == Pending || c.stage.Fresh?) && c.kind in {Accept, Disconnect})
  }

  function TokenOf(x: nat): Context -> nat {
    (c: Context) => if c.session == x && HasToken(c) then 1 else 0
  }

  function Live(contexts: seq<Context>, x: nat): nat {
    Sum(contexts, LiveOf(x))
  }

  function Tokens(contexts: seq<Context>, x: nat): nat {
    Sum(contexts, TokenOf(x))
  }

  predicate Counted(s: State, x: nat)
    requires x < |s.sessions|
  {
    s.sessions[x].refs == Live(s.contexts, x) + One(s.sessions[x].issueRef)
  }

  /**
   * The right is in exactly one place while the issue reference is held: an accept on its way, the connected
   * flag, a disconnect on its way, or lost with a refused call.
   */
  predicate OneToken(s: State, x: nat)
    requires x < |s.sessions|
  {
    One(s.sessions[x].connected) + Tokens(s.contexts, x) + One(s.main == Issued(x)) + One(s.sessions[x].refused)
    == One(s.sessions[x].issueRef)
  }

  /** A session is in the pool, on its way back, or referred to: exactly one of these. */
  predicate OnePlace(s: State, x: nat)
    requires x < |s.sessions|
  {
    && multiset(s.free)[x] + s.returning[x] + One(s.sessions[x].refs > 0) == 1
    && s.sessions[x].issues == s.sessions[x].returnings + One(x !in s.free)
  }

  predicate SessionInv(s: State, x: nat)
    requires x < |s.sessions|
  {
    Counted(s, x) && OneToken(s, x) && OnePlace(s, x)
  }

  /** Handlers post sends and receives only; accepts and disconnects are posted elsewhere. */
  predicate PostsData(stage: Stage) {
    stage.TryPost? || stage.Constructing? ==> stage.kind in {PreRecv, Recv, Send}
  }

  /** A context waited for by its constructor knows its constructor. */
  predicate Owned(s: State, c: nat)
    requires c < |s.contexts|
  {
    && s.contexts[c].session < |s.sessions|
    && PostsData(s.contexts[c].stage)
    && (s.contexts[c].stage.AwaitCall? || s.contexts[c].stage.DropChild? ==>
      var child := s.contexts[c].stage.child;
      && child < |s.contexts| && child != c
      && s.contexts[child].stage == Fresh(Handler(c)) && s.contexts[child].session == s.contexts[c].session
      && s.contexts[child].kind != Accept)
  }

  predicate MainOwned(s: State) {
    match s.main
    case Issued(x) => x < |s.sessions|
    case Await(c) => c < |s.contexts| && s.contexts[c].stage == Fresh(Main) && s.contexts[c].kind == Accept
    case Drop(c) => c < |s.contexts| && s.contexts[c].stage == Fresh(Main) && s.contexts[c].kind == Accept
    case _ => true
  }

  predicate Pooled(s: State) {
    && |s.free| + s.issueCount - s.returnCount == |s.sessions|
    && forall i :: 0 <= i < |s.free| ==> s.free[i] < |s.sessions|
  }

  predicate Inv(s: State) {
    && !s.crashed && Pooled(s) && MainOwned(s)
    && (forall c :: 0 <= c < |s.contexts| ==> Owned(s, c))
    && (forall x :: 0 <= x < |s.sessions| ==> SessionInv(s, x))
  }

  lemma StagedCounts(contexts: seq<Context>, c: nat, stage: Stage, x: nat)
    requires c < |contexts|
    ensures var (was, now) := (contexts[c], contexts[c].(stage := stage));
      && Live(Staged(contexts, c, stage), x) + LiveOf(x)(was) == Live(contexts, x) + LiveOf(x)(now)
      && Tokens(Staged(contexts, c, stage), x) + TokenOf(x)(was) == Tokens(contexts, x) + TokenOf(x)(now)
      && Live(contexts, x) >= LiveOf(x)(was) && Tokens(contexts, x) >= TokenOf(x)(was)
  {
    SumUpdate(contexts, LiveOf(x), c, contexts[c].(stage := stage));
    SumUpdate(contexts, TokenOf(x), c, contexts[c].(stage := stage));
    SumMember(contexts, LiveOf(x), c);
    SumMember(contexts, TokenOf(x), c);
  }

  lemma AppendedCounts(contexts: seq<Context>, ctx: Context, x: nat)
    ensures Live(contexts + [ctx], x) == Live(contexts, x) + LiveOf(x)(ctx)
    ensures Tokens(contexts + [ctx], x) == Tokens(contexts, x) + TokenOf(x)(ctx)
  {
    SumAppend(contexts, LiveOf(x), ctx);
    SumAppend(contexts, TokenOf(x), ctx);
  }

  lemma LiveIs(contexts: seq<Context>, x: nat)
    ensures Live(contexts, x) == Sum(contexts, LiveOf(x))
  {
  }

  // Each step keeps the invariant

  /** Moving a handler on by itself: no reference taken or released. */
  lemma AdvanceKeeps(s: State, c: nat, stage: Stage, connected: bool)
    requires Inv(s) && c < |s.contexts|
    requires !s.contexts[c].stage.Fresh? && s.contexts[c].stage != Gone && !stage.Fresh? && stage != Gone
    requires PostsData(stage)
    requires stage.AwaitCall? || stage.DropChild? ==> s.contexts[c].stage.AwaitCall? && stage.child == s.contexts[c].stage.child
    requires s.contexts[c].session < |s.sessions|
    requires var x := s.contexts[c].session;
      One(connected) + One(HasToken(s.contexts[c].(stage := stage))) == One(s.sessions[x].connected) + One(HasToken(s.contexts[c]))
    ensures var x := s.contexts[c].session;
      Inv(AtStage(s.(sessions := s.sessions[x := s.sessions[x].(connected := connected)]), c, stage))
  {
    hide Live, Tokens, HasToken;
    assert Owned(s, c);
    var x := s.contexts[c].session;
    var s' := AtStage(s.(sessions := s.sessions[x := s.sessions[x].(connected := connected)]), c, stage);
    forall y | 0 <= y < |s'.sessions|
      ensures SessionInv(s', y)
    {
      assert SessionInv(s, y);
      StagedCounts(s.contexts, c, stage, y);
    }
    forall d | 0 <= d < |s'.contexts|
      ensures Owned(s', d)
    {
      assert Owned(s, d);
    }
  }

  /** Constructing the next context for a handler's session. */
  lemma ConstructKeeps(s: State, c: nat, kind: Kind, closeOnFail: bool)
    requires Inv(s) && c < |s.contexts|
    requires s.contexts[c].stage.Constructing? || s.contexts[c].stage.ConstructingClose?
    requires kind != Accept && (kind == Disconnect <==> s.contexts[c].stage.ConstructingClose?)
    ensures Owned(s, c)
    ensures Inv(AtStage(Construct(s, s.contexts[c].session, kind, Handler(c)), c, AwaitCall(|s.contexts|, closeOnFail)))
  {
    hide Live, Tokens;
    assert Owned(s, c);
    var (x, ctx) := (s.contexts[c].session, Context(s.contexts[c].session, kind, Fresh(Handler(c))));
    assert SessionInv(s, x);
    SumMember(s.contexts, LiveOf(x), c);
    LiveIs(s.contexts, x);
    var mid := s.contexts + [ctx];
    var s' := AtStage(Construct(s, x, kind, Handler(c)), c, AwaitCall(|s.contexts|, closeOnFail));
    forall y | 0 <= y < |s'.sessions|
      ensures SessionInv(s', y)
    {
      assert SessionInv(s, y);
      AppendedCounts(s.contexts, ctx, y);
      StagedCounts(mid, c, AwaitCall(|s.contexts|, closeOnFail), y);
    }
    forall d | 0 <= d < |s'.contexts|
      ensures Owned(s', d)
    {
      if d < |s.contexts| {
        assert Owned(s, d);
      }
    }
  }

  /** The system accepts a handler's child: the completion will carry on from here. */
  lemma CallAcceptedKeeps(s: State, c: nat)
    requires Inv(s) && c < |s.contexts| && s.contexts[c].stage.AwaitCall?
    ensures Owned(s, c) && Inv(AtStage(AtStage(s, s.contexts[c].stage.child, Pending), c, Deleting))
  {
    hide Live, Tokens;
    assert Owned(s, c);
    var child := s.contexts[c].stage.child;
    var mid := Staged(s.contexts, child, Pending);
    var s' := AtStage(AtStage(s, child, Pending), c, Deleting);
    forall y | 0 <= y < |s'.sessions|
      ensures SessionInv(s', y)
    {
      assert SessionInv(s, y);
      StagedCounts(s.contexts, child, Pending, y);
      StagedCounts(mid, c, Deleting, y);
    }
    forall d | 0 <= d < |s'.contexts|
      ensures Owned(s', d)
    {
      assert Owned(s, d);
    }
  }

  /** Releasing one reference, after one context of the session died or its issue reference was dropped. */
  lemma ReleaseKeeps(s: State, s1: State, x: nat)
    requires Inv(s) && x < |s.sessions| == |s1.sessions|
    requires s1 == s.(contexts := s1.contexts, sessions := s1.sessions)
    requires s1.sessions == s.sessions[x := s.sessions[x].(issueRef := s1.sessions[x].issueRef, refused := s1.sessions[x].refused)]
    requires forall d :: 0 <= d < |s1.contexts| ==> Owned(s1, d)
    requires forall y :: 0 <= y < |s.sessions| ==> OneToken(s1, y)
    requires forall y :: 0 <= y < |s.sessions| ==>
      Live(s1.contexts, y) + One(s1.sessions[y].issueRef) + One(y == x) == Live(s.contexts, y) + One(s.sessions[y].issueRef)
    requires s.main == s1.main && (s.main.Await? || s.main.Drop? ==> MainOwned(s1))
    ensures Inv(Release(s1, x))
  {
    hide Live, Tokens;
    var s' := Release(s1, x);
    assert SessionInv(s, x);
    assert !s'.crashed;
    forall y | 0 <= y < |s'.sessions|
      ensures SessionInv(s', y)
    {
      assert SessionInv(s, y) && OneToken(s1, y);
    }
    forall d | 0 <= d < |s'.contexts|
      ensures Owned(s', d)
    {
      assert Owned(s1, d);
    }
  }

  lemma DropChildKeeps(s: State, c: nat)
    requires Inv(s) && c < |s.contexts| && s.contexts[c].stage.DropChild?
    ensures Owned(s, c)
    ensures var (x, child, next) := (s.contexts[c].session, s.contexts[c].stage.child, AfterFailure(s.contexts[c].stage.closeOnFail));
      Inv(Release(Dropped(s, c, child, next, x), x))
  {
    hide Live, Tokens;
    assert Owned(s, c);
    var (x, child, next) := (s.contexts[c].session, s.contexts[c].stage.child, AfterFailure(s.contexts[c].stage.closeOnFail));
    var mid := Staged(s.contexts, child, Gone);
    var s1 := Dropped(s, c, child, next, x);
    forall y | 0 <= y < |s.sessions|
      ensures OneToken(s1, y)
      ensures Live(s1.contexts, y) + One(s1.sessions[y].issueRef) + One(y == x) == Live(s.contexts, y) + One(s.sessions[y].issueRef)
    {
      assert SessionInv(s, y);
      StagedCounts(s.contexts, child, Gone, y);
      StagedCounts(mid, c, next, y);
    }
    forall d | 0 <= d < |s1.contexts|
      ensures Owned(s1, d)
    {
      assert Owned(s, d);
    }
    ReleaseKeeps(s, s1, x);
  }

  lemma ReleasingKeeps(s: State, c: nat)
    requires Inv(s) && c < |s.contexts| && s.contexts[c].stage == ReleasingIssue
    ensures Owned(s, c)
    ensures var x := s.contexts[c].session;
      Inv(Release(AtStage(s.(sessions := s.sessions[x := s.sessions[x].(issueRef := false)]), c, Deleting), x))
  {
    hide Live, Tokens;
    assert Owned(s, c);
    var x := s.contexts[c].session;
    var s1 := AtStage(s.(sessions := s.sessions[x := s.sessions[x].(issueRef := false)]), c, Deleting);
    forall y | 0 <= y < |s.sessions|
      ensures OneToken(s1, y)
      ensures Live(s1.contexts, y) + One(s1.sessions[y].issueRef) + One(y == x) == Live(s.contexts, y) + One(s.sessions[y].issueRef)
    {
      assert SessionInv(s, y);
      StagedCounts(s.contexts, c, Deleting, y);
    }
    forall d | 0 <= d < |s1.contexts|
      ensures Owned(s1, d)
    {
      assert Owned(s, d);
    }
    ReleaseKeeps(s, s1, x);
  }

  lemma DeletingKeeps(s: State, c: nat)
    requires Inv(s) && c < |s.contexts| && s.contexts[c].stage == Deleting
    ensures Owned(s, c) && Inv(Release(AtStage(s, c, Gone), s.contexts[c].session))
  {
    hide Live, Tokens;
    assert Owned(s, c);
    var x := s.contexts[c].session;
    var s1 := AtStage(s, c, Gone);
    forall y | 0 <= y < |s.sessions|
      ensures OneToken(s1, y)
      ensures Live(s1.contexts, y) + One(s1.sessions[y].issueRef) + One(y == x) == Live(s.contexts, y) + One(s.sessions[y].issueRef)
    {
      assert SessionInv(s, y);
      StagedCounts(s.contexts, c, Gone, y);
    }
    forall d | 0 <= d < |s1.contexts|
      ensures Owned(s1, d)
    {
      assert Owned(s, d);
    }
    assert s1.sessions == s.sessions[x := s.sessions[x].(issueRef := s1.sessions[x].issueRef)];
    ReleaseKeeps(s, s1, x);
  }

  /** Moving a handler on without touching its session. */
  lemma AdvanceSame(s: State, c: nat, stage: Stage)
    requires Inv(s) && c < |s.contexts|
    requires !s.contexts[c].stage.Fresh? && s.contexts[c].stage != Gone && !stage.Fresh? && stage != Gone
    requires PostsData(stage) && s.contexts[c].session < |s.sessions|
    requires stage.AwaitCall? || stage.DropChild? ==> s.contexts[c].stage.AwaitCall? && stage.child == s.contexts[c].stage.child
    requires HasToken(s.contexts[c].(stage := stage)) <==> HasToken(s.contexts[c])
    ensures Inv(AtStage(s, c, stage))
  {
    hide Inv;
    var x := s.contexts[c].session;
    var connected := s.sessions[x].connected;
    AdvanceKeeps(s, c, stage, connected);
    assert s.(sessions := s.sessions[x := s.sessions[x].(connected := connected)]) == s;
  }

  lemma CompleteKeeps(s: State, c: nat, outcome: Outcome)
    requires Inv(s)
    ensures Inv(CompleteDo(s, c, outcome))
  {
    hide Inv;
    if c < |s.contexts| && s.contexts[c].stage == Pending {
      ContextSession(s, c);
      AdvanceSame(s, c, CompleteDo(s, c, outcome).contexts[c].stage);
    }
  }

  lemma ContextSession(s: State, c: nat)
    requires Inv(s) && c < |s.contexts|
    ensures s.contexts[c].session < |s.sessions| && PostsData(s.contexts[c].stage) && Owned(s, c)
    ensures s.contexts[c].stage == Accepting ==> !s.sessions[s.contexts[c].session].connected
  {
    assert Owned(s, c);
    assert SessionInv(s, s.contexts[c].session);
    SumMember(s.contexts, TokenOf(s.contexts[c].session), c);
  }

  lemma HandleKeeps(s: State, c: nat, ok: bool)
    requires Inv(s)
    ensures Inv(HandleDo(s, c, ok))
  {
    hide Inv, AtStage, Release, Construct, Owned;
    if c < |s.contexts| {
      ContextSession(s, c);
      var x := s.contexts[c].session;
      match s.contexts[c].stage {
        case Accepting => AdvanceKeeps(s, c, if ok then TryPost(PreRecv, false) else Closing, true);
        case TryPost(kind, closeOnFail) =>
          AdvanceSame(s, c, AfterFailure(closeOnFail));
          AdvanceSame(s, c, Deleting);
          AdvanceSame(s, c, Constructing(kind, closeOnFail));
        case Constructing(kind, closeOnFail) => ConstructKeeps(s, c, kind, closeOnFail);
        case AwaitCall(child, closeOnFail) =>
          if ok {
            CallAcceptedKeeps(s, c);
          } else {
            AdvanceSame(s, c, DropChild(child, closeOnFail));
          }
        case DropChild(child, closeOnFail) => DropChildKeeps(s, c);
        case Closing => AdvanceKeeps(s, c, if s.sessions[x].connected then ConstructingClose else Deleting, false);
        case ConstructingClose => ConstructKeeps(s, c, Disconnect, false);
        case ReleasingIssue => ReleasingKeeps(s, c);
        case Deleting => DeletingKeeps(s, c);
        case _ =>
      }
    }
  }

  // The accept loop and the return of sessions

  lemma PopCounts(free: seq<nat>, y: nat)
    requires free != []
    ensures multiset(free)[y] == multiset(free[..|free| - 1])[y] + One(y == free[|free| - 1])
    ensures (y in free <==> multiset(free)[y] > 0) && (y in free[..|free| - 1] <==> multiset(free[..|free| - 1])[y] > 0)
  {
    assert free == free[..|free| - 1] + [free[|free| - 1]];
  }

  lemma IssueKeeps(s: State)
    requires Inv(s) && s.main == Loop && s.issueCount - s.returnCount < |s.sessions|
    ensures s.free != [] && s.free[|s.free| - 1] < |s.sessions| && Inv(MainDo(s, true)) && MainDo(s, false) == MainDo(s, true)
  {
    hide Live, Tokens;
    var x := s.free[|s.free| - 1];
    PopCounts(s.free, x);
    assert SessionInv(s, x);
    var s' := MainDo(s, true);
    forall y | 0 <= y < |s'.sessions|
      ensures SessionInv(s', y)
    {
      assert SessionInv(s, y);
      PopCounts(s.free, y);
    }
    forall d | 0 <= d < |s'.contexts|
      ensures Owned(s', d)
    {
      assert Owned(s, d);
    }
  }

  lemma ConstructAcceptKeeps(s: State, x: nat)
    requires Inv(s) && s.main == Issued(x)
    ensures x < |s.sessions| && Inv(Construct(s, x, Accept, Main).(main := Await(|s.contexts|)))
  {
    hide Live, Tokens;
    var ctx := Context(x, Accept, Fresh(Main));
    var s' := Construct(s, x, Accept, Main).(main := Await(|s.contexts|));
    assert SessionInv(s, x);
    forall y | 0 <= y < |s'.sessions|
      ensures SessionInv(s', y)
    {
      assert SessionInv(s, y);
      AppendedCounts(s.contexts, ctx, y);
    }
    forall d | 0 <= d < |s'.contexts|
      ensures Owned(s', d)
    {
      if d < |s.contexts| {
        assert Owned(s, d);
      }
    }
  }

  lemma AcceptPostedKeeps(s: State, c: nat)
    requires Inv(s) && s.main == Await(c)
    ensures c < |s.contexts| && Inv(AtStage(s, c, Pending).(main := Loop))
  {
    hide Live, Tokens;
    var s' := AtStage(s, c, Pending).(main := Loop);
    forall y | 0 <= y < |s'.sessions|
      ensures SessionInv(s', y)
    {
      assert SessionInv(s, y);
      StagedCounts(s.contexts, c, Pending, y);
    }
    forall d | 0 <= d < |s'.contexts|
      ensures Owned(s', d)
    {
      assert Owned(s, d);
    }
  }

  /** Deleting the accept context after a failed call leaves the issue reference: the session stays out, and no lock is retaken. */
  lemma AcceptDroppedKeeps(s: State, c: nat)
    requires Inv(s) && s.main == Drop(c)
    ensures c < |s.contexts| && Owned(s, c)
    ensures var s1 := Release(Refuse(AtStage(s, c, Gone), s.contexts[c].session), s.contexts[c].session);
      s1.returning == s.returning && Inv(s1.(main := Stopped))
  {
    hide Live, Tokens;
    assert Owned(s, c);
    var x := s.contexts[c].session;
    var s1 := Refuse(AtStage(s, c, Gone), x);
    assert SessionInv(s, x);
    StagedCounts(s.contexts, c, Gone, x);
    var s' := Release(s1, x).(main := Stopped);
    forall y | 0 <= y < |s'.sessions|
      ensures SessionInv(s', y)
    {
      assert SessionInv(s, y);
      StagedCounts(s.contexts, c, Gone, y);
    }
    forall d | 0 <= d < |s'.contexts|
      ensures Owned(s', d)
    {
      assert Owned(s, d);
    }
  }

  /** Changing where the main thread is, away from an issued session, changes nothing else. */
  lemma MainMoveKeeps(s: State, main: MainPc)
    requires Inv(s) && !s.main.Issued? && !main.Issued? && MainOwned(s.(main := main))
    ensures Inv(s.(main := main))
  {
    hide Live, Tokens;
    var s' := s.(main := main);
    forall y | 0 <= y < |s'.sessions|
      ensures SessionInv(s', y)
    {
      assert SessionInv(s, y);
    }
    forall d | 0 <= d < |s'.contexts|
      ensures Owned(s', d)
    {
      assert Owned(s, d);
    }
  }

  lemma MainKeeps(s: State, ok: bool)
    requires Inv(s)
    ensures Inv(MainDo(s, ok))
  {
    hide AtStage, Release, Construct, SessionInv, Owned;
    match s.main
    case Idle => MainMoveKeeps(s, Loop);
    case Loop =>
      if s.issueCount - s.returnCount < |s.sessions| {
        IssueKeeps(s);
      } else {
        MainMoveKeeps(s, Idle);
      }
    case Issued(x) => ConstructAcceptKeeps(s, x);
    case Await(c) =>
      if ok {
        AcceptPostedKeeps(s, c);
      } else {
        MainMoveKeeps(s, Drop(c));
      }
    case Drop(c) => AcceptDroppedKeeps(s, c);
    case Stopped =>
  }

  lemma ReturnKeeps(s: State, x: nat)
    requires Inv(s)
    ensures Inv(ReturnDo(s, x))
  {
    hide Live, Tokens;
    if x < |s.sessions| && x in s.returning && s.main in {Idle, Stopped} {
      assert SessionInv(s, x);
      var s' := ReturnDo(s, x);
      forall y | 0 <= y < |s'.sessions|
        ensures SessionInv(s', y)
      {
        assert SessionInv(s, y);
        assert multiset(s.free + [x]) == multiset(s.free) + multiset{x};
        assert y in s.free <==> multiset(s.free)[y] > 0;
      }
      forall d | 0 <= d < |s'.contexts|
        ensures Owned(s', d)
      {
        assert Owned(s, d);
      }
    }
  }

  lemma InvStep(s: State, e: Event)
    requires Inv(s)
    ensures Inv(Do(s, e))
  {
    hide Inv, MainDo, CompleteDo, HandleDo, ReturnDo;
    match e
    case MainStep(ok) => MainKeeps(s, ok);
    case Complete(c, outcome) => CompleteKeeps(s, c, outcome);
    case Handle(c, ok) => HandleKeeps(s, c, ok);
    case Return(x) => ReturnKeeps(s, x);
  }

  lemma {:induction false} IdentityOnce(n: nat, x: nat)
    ensures multiset(seq(n, i => i))[x] == One(x < n)
  {
    var ids := seq(n, i => i);
    if n > 0 {
      IdentityOnce(n - 1, x);
      assert ids == seq(n - 1, i => i) + [n - 1];
    }
  }

  lemma InitInv(maxConnection: nat)
    ensures Inv(Init(maxConnection))
  {
    var s := Init(maxConnection);
    forall x: nat | x < maxConnection
      ensures SessionInv(s, x)
    {
      IdentityOnce(maxConnection, x);
      assert s.free[x] == x;
    }
  }

  lemma {:induction false} AlwaysInv(maxConnection: nat, events: seq<Event>)
    ensures Inv(Exec(Init(maxConnection), events))
    ensures |Exec(Init(maxConnection), events).sessions| == maxConnection
  {
    hide Inv, Do;
    if events == [] {
      InitInv(maxConnection);
    } else {
      var front := Exec(Init(maxConnection), events[..|events| - 1]);
      AlwaysInv(maxConnection, events[..|events| - 1]);
      InvStep(front, events[|events| - 1]);
    }
  }

  // Main results: after every run, for every size of the pool

  /**
   * No assertion ever fires: not the ones on the reference count, not the one on the connected flag at
   * accept, not the ones on flag and count at return; the accept loop never takes from an empty list and
   * never tries to return a session while it holds the manager's lock.
   */
  lemma NeverCrashes(maxConnection: nat, events: seq<Event>)
    ensures !Exec(Init(maxConnection), events).crashed
  {
    AlwaysInv(maxConnection, events);
  }

  /** The reference count is the number of live contexts plus the issue reference, and is zero exactly when the session is not issued. */
  lemma ReferencesCounted(maxConnection: nat, events: seq<Event>, x: nat)
    requires x < maxConnection
    ensures |Exec(Init(maxConnection), events).sessions| == maxConnection
    ensures var s := Exec(Init(maxConnection), events);
      && s.sessions[x].refs == Live(s.contexts, x) + One(s.sessions[x].issueRef)
      && (s.sessions[x].connected ==> s.sessions[x].issueRef)
      && (s.sessions[x].refs == 0 <==> x in s.free || x in s.returning)
  {
    hide Live, Tokens;
    AlwaysInv(maxConnection, events);
    var s := Exec(Init(maxConnection), events);
    assert SessionInv(s, x);
    assert x in s.free <==> multiset(s.free)[x] > 0;
  }

  /** Every issue is returned at most once: the counts differ by one exactly while the session is out of the pool. */
  lemma ReturnedAtMostOnce(maxConnection: nat, events: seq<Event>, x: nat)
    requires x < maxConnection
    ensures |Exec(Init(maxConnection), events).sessions| == maxConnection
    ensures var s := Exec(Init(maxConnection), events);
      s.sessions[x].issues == s.sessions[x].returnings + One(x !in s.free)
  {
    AlwaysInv(maxConnection, events);
    assert SessionInv(Exec(Init(maxConnection), events), x);
  }

  /** A list without repetition of numbers below `n` has at most `n` members. */
  lemma {:induction false} NoRepetition(s: seq<int>, n: nat)
    requires forall x :: multiset(s)[x] <= One(0 <= x < n)
    ensures |s| <= n
  {
    if s != [] {
      assert multiset(s)[s[0]] > 0;
      if i :| 0 <= i < |s| && s[i] == n - 1 {
        var rest := s[..i] + s[i + 1..];
        assert s == s[..i] + [s[i]] + s[i + 1..];
        assert multiset(s) == multiset(rest) + multiset([s[i]]);
        forall x
          ensures multiset(rest)[x] <= One(0 <= x < n - 1)
        {
          assert multiset(rest)[x] <= multiset(s)[x];
        }
        NoRepetition(rest, n - 1);
      } else {
        NoRepetition(s, n - 1);
      }
    }
  }

  /**
   * Sessions in the pool and sessions out of it always make up the whole; no session is in the pool twice,
   * none in the pool is referred to, and no more are returned than issued.
   */
  lemma PoolConserved(maxConnection: nat, events: seq<Event>)
    ensures var s := Exec(Init(maxConnection), events);
      && |s.free| + s.issueCount - s.returnCount == maxConnection && s.returnCount <= s.issueCount
      && (s.issueCount - s.returnCount < maxConnection <==> s.free != [])
      && (forall x: nat :: multiset(s.free)[x] <= 1)
      && (forall x: nat :: x in s.free ==> x < |s.sessions| && s.sessions[x].refs == 0 && Live(s.contexts, x) == 0)
  {
    hide Live, Tokens;
    AlwaysInv(maxConnection, events);
    var s := Exec(Init(maxConnection), events);
    forall x: nat
      ensures multiset(s.free)[x] <= One(x < maxConnection)
      ensures x in s.free ==> x < |s.sessions| && s.sessions[x].refs == 0 && Live(s.contexts, x) == 0
    {
      assert x in s.free <==> multiset(s.free)[x] > 0;
      if x in s.free {
        var i :| 0 <= i < |s.free| && s.free[i] == x;
        assert SessionInv(s, x);
      }
    }
    forall x
      ensures multiset(s.free)[x] <= One(0 <= x < maxConnection)
    {
      assert x < 0 ==> x !in multiset(s.free);
    }
    NoRepetition(s.free, maxConnection);
  }
}
