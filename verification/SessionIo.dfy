/**
 * Sends and receives of a pooled session: each handler posts the next one and ends, so a session has one
 * chain of I/O at a time, however often it is returned and issued again.
 */
module SessionIo {
  import opened Counting
  import opened SessionPool

  /** Contexts that carry the chain: an accept, send or receive outstanding, or a handler that may still post one. */
  predicate InChain(c: Context) {
    || ((c.stage.Fresh? || c.stage.Pending?) && c.kind != Disconnect)
    || c.stage.Accepting? || c.stage.TryPost? || c.stage.Constructing?
  }

  function ChainOf(x: nat): Context -> nat {
    (c: Context) => if c.session == x && InChain(c) then 1 else 0
  }

  function Chain(contexts: seq<Context>, x: nat): nat {
    Sum(contexts, ChainOf(x))
  }

  predicate OneChain(s: State, x: nat) {
    Chain(s.contexts, x) + One(s.main == Issued(x)) <= 1
  }

  lemma ChainStaged(contexts: seq<Context>, c: nat, stage: Stage, x: nat)
    requires c < |contexts|
    ensures Chain(Staged(contexts, c, stage), x) + ChainOf(x)(contexts[c])
      == Chain(contexts, x) + ChainOf(x)(contexts[c].(stage := stage))
  {
    SumUpdate(contexts, ChainOf(x), c, contexts[c].(stage := stage));
  }

  lemma ChainAppended(contexts: seq<Context>, ctx: Context, x: nat)
    ensures Chain(contexts + [ctx], x) == Chain(contexts, x) + ChainOf(x)(ctx)
  {
    SumAppend(contexts, ChainOf(x), ctx);
  }

  lemma {:induction false} ChainIsLive(contexts: seq<Context>, x: nat)
    ensures Sum(contexts, ChainOf(x)) <= Sum(contexts, LiveOf(x))
  {
    if contexts != [] {
      ChainIsLive(contexts[1..], x);
    }
  }

  lemma ReleaseContexts(s: State, x: nat)
    requires x < |s.sessions|
    ensures Release(s, x).contexts == s.contexts
  {
  }

  lemma DropChildChain(contexts: seq<Context>, c: nat, child: nat, next: Stage, x: nat)
    requires c < |contexts| && child < |contexts| && child != c
    requires contexts[c].stage.DropChild? && next in {Closing, Deleting}
    ensures Chain(Staged(Staged(contexts, child, Gone), c, next), x) <= Chain(contexts, x)
  {
    hide Chain;
    ChainStaged(contexts, child, Gone, x);
    ChainStaged(Staged(contexts, child, Gone), c, next, x);
  }

  lemma AcceptedChain(contexts: seq<Context>, c: nat, child: nat, x: nat)
    requires c < |contexts| && child < |contexts| && child != c
    requires contexts[c].stage.AwaitCall? && contexts[child].stage.Fresh?
    ensures Chain(Staged(Staged(contexts, child, Pending), c, Deleting), x) <= Chain(contexts, x)
  {
    hide Chain;
    ChainStaged(contexts, child, Pending, x);
    ChainStaged(Staged(contexts, child, Pending), c, Deleting, x);
  }

  /** No step of a handler adds to a chain: it hands it on to the context it posts, or ends it. */
  lemma HandleChain(s: State, c: nat, ok: bool, x: nat)
    requires Inv(s)
    ensures Chain(HandleDo(s, c, ok).contexts, x) <= Chain(s.contexts, x)
  {
    hide Chain, Inv, Release, Construct;
    if c < |s.contexts| {
      ContextSession(s, c);
      var y := s.contexts[c].session;
      match s.contexts[c].stage {
        case Accepting =>
          ChainStaged(s.contexts, c, TryPost(PreRecv, false), x);
          ChainStaged(s.contexts, c, Closing, x);
        case TryPost(kind, closeOnFail) =>
          ChainStaged(s.contexts, c, AfterFailure(closeOnFail), x);
          ChainStaged(s.contexts, c, Deleting, x);
          ChainStaged(s.contexts, c, Constructing(kind, closeOnFail), x);
        case Constructing(kind, closeOnFail) => ConstructedChain(s, c, kind, AwaitCall(|s.contexts|, closeOnFail), x);
        case AwaitCall(child, closeOnFail) =>
          AcceptedChain(s.contexts, c, child, x);
          ChainStaged(s.contexts, c, DropChild(child, closeOnFail), x);
        case DropChild(child, closeOnFail) =>
          DropChildChain(s.contexts, c, child, AfterFailure(closeOnFail), x);
          ReleaseContexts(Dropped(s, c, child, AfterFailure(closeOnFail), y), y);
        case Closing =>
          ChainStaged(s.contexts, c, ConstructingClose, x);
          ChainStaged(s.contexts, c, Deleting, x);
        case ConstructingClose => ConstructedChain(s, c, Disconnect, AwaitCall(|s.contexts|, false), x);
        case ReleasingIssue =>
          ChainStaged(s.contexts, c, Deleting, x);
          ReleaseContexts(AtStage(s.(sessions := s.sessions[y := s.sessions[y].(issueRef := false)]), c, Deleting), y);
        case Deleting =>
          ChainStaged(s.contexts, c, Gone, x);
          ReleaseContexts(AtStage(s, c, Gone), y);
        case _ =>
      }
    }
  }

  lemma ConstructedChain(s: State, c: nat, kind: Kind, stage: Stage, x: nat)
    requires c < |s.contexts| && s.contexts[c].session < |s.sessions| && stage.AwaitCall?
    requires kind == Disconnect || s.contexts[c].stage.Constructing?
    ensures var s' := AtStage(Construct(s, s.contexts[c].session, kind, Handler(c)), c, stage);
      Chain(s'.contexts, x) <= Chain(s.contexts, x)
  {
    hide Chain;
    var ctx := Context(s.contexts[c].session, kind, Fresh(Handler(c)));
    ChainAppended(s.contexts, ctx, x);
    ChainStaged(s.contexts + [ctx], c, stage, x);
  }

  lemma CompleteChain(s: State, c: nat, outcome: Outcome, x: nat)
    ensures Chain(CompleteDo(s, c, outcome).contexts, x) <= Chain(s.contexts, x)
  {
    hide Chain;
    if c < |s.contexts| && s.contexts[c].stage == Pending {
      ChainStaged(s.contexts, c, CompleteDo(s, c, outcome).contexts[c].stage, x);
    }
  }

  /** The accept loop starts a chain only for a session it took from the pool, which nobody refers to. */
  lemma MainChain(s: State, ok: bool, x: nat)
    requires Inv(s) && OneChain(s, x)
    ensures OneChain(MainDo(s, ok), x)
  {
    hide Live, Tokens, Chain, Owned;
    match s.main
    case Idle =>
    case Loop =>
      if s.issueCount - s.returnCount < |s.sessions| {
        var y := s.free[|s.free| - 1];
        assert SessionInv(s, y);
        PopCounts(s.free, y);
        NoChainInPool(s, y);
      }
    case Issued(y) => ChainAppended(s.contexts, Context(y, Accept, Fresh(Main)), x);
    case Await(c) => ChainStaged(s.contexts, c, Pending, x);
    case Drop(c) => ChainStaged(s.contexts, c, Gone, x);
    case Stopped =>
  }

  lemma NoChainInPool(s: State, y: nat)
    requires y < |s.sessions| && SessionInv(s, y) && s.sessions[y].refs == 0
    ensures Chain(s.contexts, y) == 0
  {
    ChainIsLive(s.contexts, y);
  }

  lemma ChainStep(s: State, e: Event, x: nat)
    requires Inv(s) && OneChain(s, x)
    ensures OneChain(Do(s, e), x)
  {
    hide Inv, Chain, MainDo;
    match e
    case MainStep(ok) => MainChain(s, ok, x);
    case Complete(c, outcome) => CompleteChain(s, c, outcome, x);
    case Handle(c, ok) => HandleChain(s, c, ok, x);
    case Return(y) =>
  }

  lemma {:induction false} AlwaysOneChain(maxConnection: nat, events: seq<Event>, x: nat)
    ensures OneChain(Exec(Init(maxConnection), events), x)
  {
    hide Inv, Do, OneChain;
    if events == [] {
      assert OneChain(Init(maxConnection), x) by {
        EmptyChain(maxConnection, x);
      }
    } else {
      var front := events[..|events| - 1];
      AlwaysOneChain(maxConnection, front, x);
      AlwaysInv(maxConnection, front);
      ChainStep(Exec(Init(maxConnection), front), events[|events| - 1], x);
    }
  }

  lemma EmptyChain(maxConnection: nat, x: nat)
    ensures OneChain(Init(maxConnection), x)
  {
  }

  /**
   * After every run a session has at most one accept, send or receive outstanding or about to be posted, so
   * one completion at a time touches its buffer.
   */
  lemma OneIoAtATime(maxConnection: nat, events: seq<Event>, c: nat, d: nat)
    requires var s := Exec(Init(maxConnection), events);
      && c < |s.contexts| && d < |s.contexts| && s.contexts[c].session == s.contexts[d].session
      && InChain(s.contexts[c]) && InChain(s.contexts[d])
    ensures c == d
  {
    var s := Exec(Init(maxConnection), events);
    var x := s.contexts[c].session;
    AlwaysOneChain(maxConnection, events, x);
    if c != d {
      SumTwoMembers(s.contexts, ChainOf(x), if c < d then c else d, if c < d then d else c);
    }
  }
}
