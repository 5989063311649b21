/**
 * What completions lead to: each accept, receive and send hands its session on to the next I/O, a failure
 * closes the connection, and a completed disconnect gives the session back.
 */
module SessionRun {
  import opened Counting
  import opened SessionPool

  // One handler at work on its own session

  /** `s` with context `c` at another stage, its session changed, and contexts added. */
  function View(s: State, c: nat, stage: Stage, session: Session, extra: seq<Context>): State
    requires c < |s.contexts| && s.contexts[c].session < |s.sessions|
  {
    s.(contexts := s.contexts[c := s.contexts[c].(stage := stage)] + extra,
      sessions := s.sessions[s.contexts[c].session := session])
  }

  /** A state in which a handler can work: not crashed, and the context's session is in the pool's table. */
  predicate Ready(s: State, c: nat) {
    !s.crashed && c < |s.contexts| && s.contexts[c].session < |s.sessions|
  }

  lemma ViewStage(s: State, c: nat, stage: Stage, session: Session, extra: seq<Context>, next: Stage)
    requires Ready(s, c)
    ensures AtStage(View(s, c, stage, session, extra), c, next) == View(s, c, next, session, extra)
  {
    var v := View(s, c, stage, session, extra);
    assert Staged(v.contexts, c, next) == View(s, c, next, session, extra).contexts;
  }

  lemma ViewSession(s: State, c: nat, stage: Stage, session: Session, extra: seq<Context>, next: Session)
    requires Ready(s, c)
    ensures var (v, x) := (View(s, c, stage, session, extra), s.contexts[c].session);
      && v.(sessions := v.sessions[x := next]) == View(s, c, stage, next, extra)
      && v.sessions[x] == session && v.contexts[c].session == x && v.contexts[c].stage == stage
      && v.contexts[c].kind == s.contexts[c].kind && |v.contexts| == |s.contexts| + |extra|
      && !v.crashed && |v.sessions| == |s.sessions|
  {
  }

  lemma ViewAppend(s: State, c: nat, stage: Stage, session: Session, extra: seq<Context>, ctx: Context)
    requires Ready(s, c)
    ensures var v := View(s, c, stage, session, extra);
      v.(contexts := v.contexts + [ctx]) == View(s, c, stage, session, extra + [ctx])
  {
    var v := View(s, c, stage, session, extra);
    assert v.contexts + [ctx] == View(s, c, stage, session, extra + [ctx]).contexts;
  }

  /** The context added last, at another stage. */
  lemma ViewChild(s: State, c: nat, stage: Stage, session: Session, extra: seq<Context>, ctx: Context, next: Stage)
    requires Ready(s, c)
    ensures var child := |s.contexts| + |extra|;
      && child < |View(s, c, stage, session, extra + [ctx]).contexts|
      && View(s, c, stage, session, extra + [ctx]).contexts[child] == ctx
      && AtStage(View(s, c, stage, session, extra + [ctx]), child, next)
        == View(s, c, stage, session, extra + [ctx.(stage := next)])
  {
    var child := |s.contexts| + |extra|;
    var v := View(s, c, stage, session, extra + [ctx]);
    assert Staged(v.contexts, child, next) == View(s, c, stage, session, extra + [ctx.(stage := next)]).contexts;
  }

  lemma ReleaseView(s: State, c: nat, stage: Stage, session: Session, extra: seq<Context>)
    requires Ready(s, c) && session.refs > 1
    ensures Release(View(s, c, stage, session, extra), s.contexts[c].session)
      == View(s, c, stage, session.(refs := session.refs - 1), extra)
  {
    ViewSession(s, c, stage, session, extra, session.(refs := session.refs - 1));
  }

  // The steps

  lemma AcceptingStep(s: State, c: nat, session: Session, ok: bool)
    requires Ready(s, c) && !session.connected
    ensures Do(View(s, c, Accepting, session, []), Handle(c, ok))
      == View(s, c, if ok then TryPost(PreRecv, false) else Closing, session.(connected := true), [])
  {
    hide View, AtStage;
    ViewSession(s, c, Accepting, session, [], session.(connected := true));
    ViewStage(s, c, Accepting, session.(connected := true), [], TryPost(PreRecv, false));
    ViewStage(s, c, Accepting, session.(connected := true), [], Closing);
  }

  lemma TryStep(s: State, c: nat, kind: Kind, close: bool, session: Session, ok: bool)
    requires Ready(s, c)
    ensures Do(View(s, c, TryPost(kind, close), session, []), Handle(c, ok)) == View(s, c,
        if session.connected && (ok || kind !in {Recv, Send}) then Constructing(kind, close)
        else if session.connected && kind == Send then Deleting
        else if close then Closing else Deleting,
        session, [])
  {
    hide View, AtStage;
    ViewSession(s, c, TryPost(kind, close), session, [], session);
    ViewStage(s, c, TryPost(kind, close), session, [], Constructing(kind, close));
    ViewStage(s, c, TryPost(kind, close), session, [], Closing);
    ViewStage(s, c, TryPost(kind, close), session, [], Deleting);
  }

  /** Construction of the next context, by a posting or a closing handler. */
  lemma ConstructStep(s: State, c: nat, stage: Stage, kind: Kind, close: bool, session: Session, extra: seq<Context>)
    requires Ready(s, c) && session.refs >= 0
    requires stage == Constructing(kind, close) || (stage == ConstructingClose && kind == Disconnect && !close)
    ensures Do(View(s, c, stage, session, extra), Handle(c, true))
      == View(s, c, AwaitCall(|s.contexts| + |extra|, close), session.(refs := session.refs + 1),
        extra + [Context(s.contexts[c].session, kind, Fresh(Handler(c)))])
  {
    hide View, AtStage;
    var ctx := Context(s.contexts[c].session, kind, Fresh(Handler(c)));
    ViewSession(s, c, stage, session, extra, session);
    ViewAppend(s, c, stage, session, extra, ctx);
    ViewSession(s, c, stage, session, extra + [ctx], session.(refs := session.refs + 1));
    ViewStage(s, c, stage, session.(refs := session.refs + 1), extra + [ctx], AwaitCall(|s.contexts| + |extra|, close));
  }

  lemma CallStep(s: State, c: nat, close: bool, session: Session, extra: seq<Context>, ctx: Context, ok: bool)
    requires Ready(s, c)
    ensures var child := |s.contexts| + |extra|;
      Do(View(s, c, AwaitCall(child, close), session, extra + [ctx]), Handle(c, ok))
      == if ok then View(s, c, Deleting, session, extra + [ctx.(stage := Pending)])
         else View(s, c, DropChild(child, close), session, extra + [ctx])
  {
    hide View, AtStage;
    var child := |s.contexts| + |extra|;
    ViewSession(s, c, AwaitCall(child, close), session, extra + [ctx], session);
    ViewChild(s, c, AwaitCall(child, close), session, extra, ctx, Pending);
    ViewStage(s, c, AwaitCall(child, close), session, extra + [ctx.(stage := Pending)], Deleting);
    ViewStage(s, c, AwaitCall(child, close), session, extra + [ctx], DropChild(child, close));
  }

  lemma DropStep(s: State, c: nat, close: bool, session: Session, extra: seq<Context>, ctx: Context)
    requires Ready(s, c) && session.refs > 1 && ctx.kind != Disconnect
    ensures var child := |s.contexts| + |extra|;
      Do(View(s, c, DropChild(child, close), session, extra + [ctx]), Handle(c, true))
      == View(s, c, if close then Closing else Deleting, session.(refs := session.refs - 1), extra + [ctx.(stage := Gone)])
  {
    hide View, AtStage, Release;
    var child := |s.contexts| + |extra|;
    var next := if close then Closing else Deleting;
    ViewSession(s, c, DropChild(child, close), session, extra + [ctx], session);
    ViewChild(s, c, DropChild(child, close), session, extra, ctx, Gone);
    ViewStage(s, c, DropChild(child, close), session, extra + [ctx.(stage := Gone)], next);
    ReleaseView(s, c, next, session, extra + [ctx.(stage := Gone)]);
  }

  lemma ClosingStep(s: State, c: nat, session: Session, extra: seq<Context>)
    requires Ready(s, c)
    ensures Do(View(s, c, Closing, session, extra), Handle(c, true))
      == View(s, c, if session.connected then ConstructingClose else Deleting, session.(connected := false), extra)
  {
    hide View, AtStage;
    ViewSession(s, c, Closing, session, extra, session.(connected := false));
    ViewStage(s, c, Closing, session.(connected := false), extra, ConstructingClose);
    ViewStage(s, c, Closing, session.(connected := false), extra, Deleting);
  }

  lemma DeletingStep(s: State, c: nat, session: Session, extra: seq<Context>)
    requires Ready(s, c) && session.refs > 1
    ensures Do(View(s, c, Deleting, session, extra), Handle(c, true))
      == View(s, c, Gone, session.(refs := session.refs - 1), extra)
  {
    hide View, AtStage, Release;
    ViewSession(s, c, Deleting, session, extra, session);
    ViewStage(s, c, Deleting, session, extra, Gone);
    ReleaseView(s, c, Gone, session, extra);
  }

  lemma ReleasingStep(s: State, c: nat, session: Session)
    requires Ready(s, c) && session.refs > 1
    ensures Do(View(s, c, ReleasingIssue, session, []), Handle(c, true))
      == View(s, c, Deleting, session.(issueRef := false, refs := session.refs - 1), [])
  {
    hide View, AtStage, Release;
    ViewSession(s, c, ReleasingIssue, session, [], session.(issueRef := false));
    ViewStage(s, c, ReleasingIssue, session.(issueRef := false), [], Deleting);
    ReleaseView(s, c, Deleting, session.(issueRef := false), []);
  }

  /** The last reference goes with the last context: the session is on its way back. */
  lemma LastDeletingStep(s: State, c: nat, session: Session)
    requires Ready(s, c) && session.refs == 1
    ensures var x := s.contexts[c].session;
      Do(View(s, c, Deleting, session, []), Handle(c, true))
      == View(s, c, Gone, session.(refs := 0), []).(returning := s.returning + multiset{x})
  {
    hide View, AtStage;
    ViewSession(s, c, Deleting, session, [], session);
    ViewStage(s, c, Deleting, session, [], Gone);
    ViewSession(s, c, Gone, session, [], session.(refs := 0));
    ViewReturning(s, c, session);
  }

  lemma ViewReturning(s: State, c: nat, session: Session)
    requires Ready(s, c)
    ensures View(s, c, Gone, session, []).returning == s.returning
  {
  }

  /** A completion is dequeued: where its handler starts. */
  lemma CompleteStep(s: State, c: nat, outcome: Outcome)
    requires Ready(s, c) && s.contexts[c].stage == Pending
    ensures Do(s, Complete(c, outcome)) == View(s, c,
        match s.contexts[c].kind
        case Accept => Accepting
        case Disconnect => ReleasingIssue
        case PreRecv => TryPost(Recv, true)
        case Recv => if outcome == Failed then Closing else TryPost(Send, true)
        case Send => if outcome == Full then TryPost(PreRecv, true) else Closing,
        s.sessions[s.contexts[c].session], [])
  {
    var x := s.contexts[c].session;
    assert s.sessions[x := s.sessions[x]] == s.sessions;
    forall stage: Stage
      ensures Staged(s.contexts, c, stage) == s.contexts[c := s.contexts[c].(stage := stage)] + []
    {
    }
  }

  // Whole turns of a handler, after any run

  lemma ExecNext(n: nat, events: seq<Event>, e: Event)
    ensures Exec(Init(n), events + [e]) == Do(Exec(Init(n), events), e)
  {
    hide Do;
    assert (events + [e])[..|events|] == events;
  }

  /** A live context is counted, and so is the issue reference of a connected session. */
  lemma PendingRefs(n: nat, events: seq<Event>, c: nat)
    requires var s := Exec(Init(n), events); c < |s.contexts| && s.contexts[c].stage == Pending
    ensures var s := Exec(Init(n), events);
      && Ready(s, c)
      && var (session, kind) := (s.sessions[s.contexts[c].session], s.contexts[c].kind);
        && session.refs > One(session.issueRef) && (session.connected ==> session.issueRef)
        && (kind in {Accept, Disconnect} ==> !session.connected && session.issueRef)
  {
    hide Exec;
    AlwaysInv(n, events);
    PendingRefsAt(Exec(Init(n), events), c);
  }

  lemma PendingRefsAt(s: State, c: nat)
    requires Inv(s) && c < |s.contexts| && s.contexts[c].stage == Pending
    ensures Ready(s, c)
    ensures var (session, kind) := (s.sessions[s.contexts[c].session], s.contexts[c].kind);
        && session.refs > One(session.issueRef) && (session.connected ==> session.issueRef)
        && (kind in {Accept, Disconnect} ==> !session.connected && session.issueRef)
  {
    assert Owned(s, c);
    var x := s.contexts[c].session;
    assert SessionInv(s, x);
    SumMember(s.contexts, LiveOf(x), c);
    SumMember(s.contexts, TokenOf(x), c);
  }

  /** The cycle of the echo server. */
  function Following(kind: Kind): Kind {
    match kind
    case PreRecv => Recv
    case Recv => Send
    case _ => PreRecv
  }

  /** A completion that did what was asked. */
  predicate Succeeded(kind: Kind, outcome: Outcome) {
    (kind == Recv ==> outcome != Failed) && (kind == Send ==> outcome == Full)
  }

  /** Two contexts handed over: the old one deleted, a new one pending, and the session otherwise as it was. */
  function HandedOn(s: State, c: nat, kind: Kind, connected: bool): State
    requires c < |s.contexts| && s.contexts[c].session < |s.sessions|
  {
    var x := s.contexts[c].session;
    s.(contexts := s.contexts[c := s.contexts[c].(stage := Gone)] + [Context(x, kind, Pending)],
      sessions := s.sessions[x := s.sessions[x].(connected := connected)])
  }

  /** Posting the next I/O: three steps from the check of the flag, and one to delete the old context. */
  lemma PostingTurn(n: nat, events: seq<Event>, s: State, c: nat, kind: Kind, close: bool, session: Session)
    requires Ready(s, c) && session.connected && session.refs > 0
    requires Exec(Init(n), events) == View(s, c, TryPost(kind, close), session, [])
    ensures var h := [Handle(c, true)];
      Exec(Init(n), events + h + h + h + h)
      == View(s, c, Gone, session, [Context(s.contexts[c].session, kind, Pending)])
  {
    hide Exec, Do, View;
    var (h, more, ctx) := ([Handle(c, true)], session.(refs := session.refs + 1), Context(s.contexts[c].session, kind, Fresh(Handler(c))));
    assert [] + [ctx] == [ctx] && [] + [ctx.(stage := Pending)] == [ctx.(stage := Pending)];
    ExecNext(n, events, Handle(c, true));
    TryStep(s, c, kind, close, session, true);
    ExecNext(n, events + h, Handle(c, true));
    ConstructStep(s, c, Constructing(kind, close), kind, close, session, []);
    ExecNext(n, events + h + h, Handle(c, true));
    CallStep(s, c, close, more, [], ctx, true);
    ExecNext(n, events + h + h + h, Handle(c, true));
    DeletingStep(s, c, more, [ctx.(stage := Pending)]);
  }

  /** Requesting the disconnect of a connected session, after whatever contexts the handler has added before. */
  lemma ClosingTurn(n: nat, events: seq<Event>, s: State, c: nat, session: Session, extra: seq<Context>)
    requires Ready(s, c) && session.connected && session.refs > 0
    requires Exec(Init(n), events) == View(s, c, Closing, session, extra)
    ensures var h := [Handle(c, true)];
      Exec(Init(n), events + h + h + h + h)
      == View(s, c, Gone, session.(connected := false), extra + [Context(s.contexts[c].session, Disconnect, Pending)])
  {
    hide Exec, Do, View;
    var (h, closed, ctx) := ([Handle(c, true)], session.(connected := false), Context(s.contexts[c].session, Disconnect, Fresh(Handler(c))));
    var more := closed.(refs := session.refs + 1);
    ExecNext(n, events, Handle(c, true));
    ClosingStep(s, c, session, extra);
    ExecNext(n, events + h, Handle(c, true));
    ConstructStep(s, c, ConstructingClose, Disconnect, false, closed, extra);
    ExecNext(n, events + h + h, Handle(c, true));
    CallStep(s, c, false, more, extra, ctx, true);
    ExecNext(n, events + h + h + h, Handle(c, true));
    DeletingStep(s, c, more, extra + [ctx.(stage := Pending)]);
  }

  /**
   * After every run: when a pre-receive, receive or send of a connected session succeeds, its handler leaves
   * exactly the next I/O of the cycle pending, and nothing else has changed.
   */
  lemma SuccessHandsOn(n: nat, events: seq<Event>, c: nat, outcome: Outcome)
    requires var s := Exec(Init(n), events);
      && c < |s.contexts| && s.contexts[c].stage == Pending && s.contexts[c].kind in {PreRecv, Recv, Send}
      && s.contexts[c].session < |s.sessions| && s.sessions[s.contexts[c].session].connected
      && Succeeded(s.contexts[c].kind, outcome)
    ensures var (s, h) := (Exec(Init(n), events), [Handle(c, true)]);
      Exec(Init(n), events + [Complete(c, outcome)] + h + h + h + h) == HandedOn(s, c, Following(s.contexts[c].kind), true)
  {
    hide Exec, Do;
    var s := Exec(Init(n), events);
    PendingRefs(n, events, c);
    ExecNext(n, events, Complete(c, outcome));
    CompleteStep(s, c, outcome);
    PostingTurn(n, events + [Complete(c, outcome)], s, c, Following(s.contexts[c].kind), true, s.sessions[s.contexts[c].session]);
  }

  /** After every run: a completed accept connects its session and leaves exactly its first pre-receive pending. */
  lemma AcceptHandsOn(n: nat, events: seq<Event>, c: nat, outcome: Outcome)
    requires var s := Exec(Init(n), events);
      c < |s.contexts| && s.contexts[c].stage == Pending && s.contexts[c].kind == Accept && s.contexts[c].session < |s.sessions|
    ensures var (s, h) := (Exec(Init(n), events), [Handle(c, true)]);
      Exec(Init(n), events + [Complete(c, outcome)] + h + h + h + h + h) == HandedOn(s, c, PreRecv, true)
  {
    hide Exec, Do;
    var (s, h) := (Exec(Init(n), events), [Handle(c, true)]);
    PendingRefs(n, events, c);
    var session := s.sessions[s.contexts[c].session];
    ExecNext(n, events, Complete(c, outcome));
    CompleteStep(s, c, outcome);
    ExecNext(n, events + [Complete(c, outcome)], Handle(c, true));
    AcceptingStep(s, c, session, true);
    PostingTurn(n, events + [Complete(c, outcome)] + h, s, c, PreRecv, false, session.(connected := true));
  }

  /** After every run: an accept whose socket cannot be set up is disconnected again at once. */
  lemma SetupFailureDisconnects(n: nat, events: seq<Event>, c: nat, outcome: Outcome)
    requires var s := Exec(Init(n), events);
      c < |s.contexts| && s.contexts[c].stage == Pending && s.contexts[c].kind == Accept && s.contexts[c].session < |s.sessions|
    ensures var (s, h) := (Exec(Init(n), events), [Handle(c, true)]);
      Exec(Init(n), events + [Complete(c, outcome)] + [Handle(c, false)] + h + h + h + h) == HandedOn(s, c, Disconnect, false)
  {
    hide Exec, Do;
    var s := Exec(Init(n), events);
    PendingRefs(n, events, c);
    var session := s.sessions[s.contexts[c].session];
    ExecNext(n, events, Complete(c, outcome));
    CompleteStep(s, c, outcome);
    ExecNext(n, events + [Complete(c, outcome)], Handle(c, false));
    AcceptingStep(s, c, session, false);
    ClosingTurn(n, events + [Complete(c, outcome)] + [Handle(c, false)], s, c, session.(connected := true), []);
  }

  /** After every run: a failed receive, or a send that failed or fell short, disconnects a connected session. */
  lemma FailureDisconnects(n: nat, events: seq<Event>, c: nat, outcome: Outcome)
    requires var s := Exec(Init(n), events);
      && c < |s.contexts| && s.contexts[c].stage == Pending && s.contexts[c].kind in {Recv, Send}
      && s.contexts[c].session < |s.sessions| && s.sessions[s.contexts[c].session].connected
      && !Succeeded(s.contexts[c].kind, outcome)
    ensures var (s, h) := (Exec(Init(n), events), [Handle(c, true)]);
      Exec(Init(n), events + [Complete(c, outcome)] + h + h + h + h) == HandedOn(s, c, Disconnect, false)
  {
    hide Exec, Do;
    var s := Exec(Init(n), events);
    PendingRefs(n, events, c);
    ExecNext(n, events, Complete(c, outcome));
    CompleteStep(s, c, outcome);
    ClosingTurn(n, events + [Complete(c, outcome)], s, c, s.sessions[s.contexts[c].session], []);
  }

  /** After every run: if the system refuses the next I/O of a connected session, its handler disconnects it. */
  lemma RefusalDisconnects(n: nat, events: seq<Event>, c: nat, outcome: Outcome)
    requires var s := Exec(Init(n), events);
      && c < |s.contexts| && s.contexts[c].stage == Pending && s.contexts[c].kind in {PreRecv, Recv, Send}
      && s.contexts[c].session < |s.sessions| && s.sessions[s.contexts[c].session].connected
      && Succeeded(s.contexts[c].kind, outcome)
    ensures var (s, h, no) := (Exec(Init(n), events), [Handle(c, true)], [Handle(c, false)]);
      var x := s.contexts[c].session;
      Exec(Init(n), events + [Complete(c, outcome)] + h + h + no + h + h + h + h + h)
      == s.(contexts := s.contexts[c := s.contexts[c].(stage := Gone)]
            + [Context(x, Following(s.contexts[c].kind), Gone), Context(x, Disconnect, Pending)],
          sessions := s.sessions[x := s.sessions[x].(connected := false)])
  {
    hide Exec, Do;
    var (s, h, no) := (Exec(Init(n), events), [Handle(c, true)], [Handle(c, false)]);
    PendingRefs(n, events, c);
    var (x, kind) := (s.contexts[c].session, Following(s.contexts[c].kind));
    var (session, ctx) := (s.sessions[x], Context(x, kind, Fresh(Handler(c))));
    var (more, turn) := (session.(refs := session.refs + 1), events + [Complete(c, outcome)]);
    assert [] + [ctx] == [ctx] && [] + [ctx.(stage := Gone)] == [ctx.(stage := Gone)];
    ExecNext(n, events, Complete(c, outcome));
    CompleteStep(s, c, outcome);
    ExecNext(n, turn, Handle(c, true));
    TryStep(s, c, kind, true, session, true);
    ExecNext(n, turn + h, Handle(c, true));
    ConstructStep(s, c, Constructing(kind, true), kind, true, session, []);
    ExecNext(n, turn + h + h, Handle(c, false));
    CallStep(s, c, true, more, [], ctx, false);
    ExecNext(n, turn + h + h + no, Handle(c, true));
    DropStep(s, c, true, more, [], ctx);
    ClosingTurn(n, turn + h + h + no + h, s, c, session, [ctx.(stage := Gone)]);
    assert [ctx.(stage := Gone)] + [Context(x, Disconnect, Pending)] == [ctx.(stage := Gone), Context(x, Disconnect, Pending)];
  }

  /** After every run: without space to receive into, the handler of a connected session disconnects it. */
  lemma NoSpaceDisconnects(n: nat, events: seq<Event>, c: nat, outcome: Outcome)
    requires var s := Exec(Init(n), events);
      && c < |s.contexts| && s.contexts[c].stage == Pending && s.contexts[c].kind == PreRecv
      && s.contexts[c].session < |s.sessions| && s.sessions[s.contexts[c].session].connected
    ensures var (s, h) := (Exec(Init(n), events), [Handle(c, true)]);
      Exec(Init(n), events + [Complete(c, outcome)] + [Handle(c, false)] + h + h + h + h) == HandedOn(s, c, Disconnect, false)
  {
    hide Exec, Do;
    var s := Exec(Init(n), events);
    PendingRefs(n, events, c);
    var session := s.sessions[s.contexts[c].session];
    ExecNext(n, events, Complete(c, outcome));
    CompleteStep(s, c, outcome);
    ExecNext(n, events + [Complete(c, outcome)], Handle(c, false));
    TryStep(s, c, Recv, true, session, false);
    ClosingTurn(n, events + [Complete(c, outcome)] + [Handle(c, false)], s, c, session, []);
  }

  /** After every run: a receive that leaves nothing to echo ends the chain, with the session still connected. */
  lemma NothingToSendEnds(n: nat, events: seq<Event>, c: nat, outcome: Outcome)
    requires var s := Exec(Init(n), events);
      && c < |s.contexts| && s.contexts[c].stage == Pending && s.contexts[c].kind == Recv && outcome != Failed
      && s.contexts[c].session < |s.sessions| && s.sessions[s.contexts[c].session].connected
    ensures var (s, x) := (Exec(Init(n), events), Exec(Init(n), events).contexts[c].session);
      Exec(Init(n), events + [Complete(c, outcome)] + [Handle(c, false)] + [Handle(c, true)])
      == View(s, c, Gone, s.sessions[x].(refs := s.sessions[x].refs - 1), [])
  {
    hide Exec, Do;
    var s := Exec(Init(n), events);
    PendingRefs(n, events, c);
    var session := s.sessions[s.contexts[c].session];
    ExecNext(n, events, Complete(c, outcome));
    CompleteStep(s, c, outcome);
    ExecNext(n, events + [Complete(c, outcome)], Handle(c, false));
    TryStep(s, c, Send, true, session, false);
    ExecNext(n, events + [Complete(c, outcome)] + [Handle(c, false)], Handle(c, true));
    DeletingStep(s, c, session, []);
  }

  /** After every run: on a session disconnected meanwhile, a completed I/O only gives up its own reference. */
  lemma DisconnectedEnds(n: nat, events: seq<Event>, c: nat, outcome: Outcome)
    requires var s := Exec(Init(n), events);
      && c < |s.contexts| && s.contexts[c].stage == Pending && s.contexts[c].kind in {PreRecv, Recv, Send}
      && s.contexts[c].session < |s.sessions| && !s.sessions[s.contexts[c].session].connected
      && s.sessions[s.contexts[c].session].refs > 1
    ensures var (s, h) := (Exec(Init(n), events), [Handle(c, true)]);
      var (x, done) := (s.contexts[c].session, events + [Complete(c, outcome)] + if Succeeded(s.contexts[c].kind, outcome) then h else []);
      Exec(Init(n), done + h + h) == View(s, c, Gone, s.sessions[x].(refs := s.sessions[x].refs - 1), [])
  {
    hide Exec, Do;
    var (s, h) := (Exec(Init(n), events), [Handle(c, true)]);
    PendingRefs(n, events, c);
    var (session, kind) := (s.sessions[s.contexts[c].session], s.contexts[c].kind);
    var turn := events + [Complete(c, outcome)];
    ExecNext(n, events, Complete(c, outcome));
    CompleteStep(s, c, outcome);
    ExecNext(n, turn, Handle(c, true));
    TryStep(s, c, Following(kind), true, session, true);
    var done := turn + if Succeeded(kind, outcome) then h else [];
    assert turn + [] == turn;
    assert Exec(Init(n), done) == View(s, c, Closing, session, []);
    ExecNext(n, done, Handle(c, true));
    ClosingStep(s, c, session, []);
    assert session.(connected := false) == session;
    ExecNext(n, done + h, Handle(c, true));
    DeletingStep(s, c, session, []);
  }

  /**
   * After every run: a completed disconnect releases the issue reference; if no other context refers to the
   * session it goes to the back of the pool, as soon as the accept loop does not hold the lock.
   */
  lemma DisconnectGivesBack(n: nat, events: seq<Event>, c: nat, outcome: Outcome)
    requires var s := Exec(Init(n), events);
      && c < |s.contexts| && s.contexts[c].stage == Pending && s.contexts[c].kind == Disconnect
      && s.contexts[c].session < |s.sessions| && s.sessions[s.contexts[c].session].refs == 2 && s.main in {Idle, Stopped}
    ensures var (s, h) := (Exec(Init(n), events), [Handle(c, true)]);
      var (x, s') := (s.contexts[c].session, Exec(Init(n), events + [Complete(c, outcome)] + h + h + [Return(s.contexts[c].session)]));
      && s'.free == s.free + [x] && s'.returning == s.returning && s'.returnCount == s.returnCount + 1
      && s'.contexts == s.contexts[c := s.contexts[c].(stage := Gone)]
      && s'.sessions == s.sessions[x := s.sessions[x].(refs := 0, issueRef := false, returnings := s.sessions[x].returnings + 1)]
  {
    hide Exec, Do;
    var (s, h) := (Exec(Init(n), events), [Handle(c, true)]);
    PendingRefs(n, events, c);
    var (x, turn) := (s.contexts[c].session, events + [Complete(c, outcome)]);
    var session := s.sessions[x];
    ExecNext(n, events, Complete(c, outcome));
    CompleteStep(s, c, outcome);
    ExecNext(n, turn, Handle(c, true));
    ReleasingStep(s, c, session);
    ExecNext(n, turn + h, Handle(c, true));
    LastDeletingStep(s, c, session.(issueRef := false, refs := 1));
    ExecNext(n, turn + h + h, Return(x));
    ReturnStep(s, c, session.(issueRef := false, refs := 0));
  }

  lemma ReturnStep(s: State, c: nat, session: Session)
    requires Ready(s, c) && !session.connected && session.refs == 0 && s.main in {Idle, Stopped}
    ensures var x := s.contexts[c].session;
      var s' := Do(View(s, c, Gone, session, []).(returning := s.returning + multiset{x}), Return(x));
      && s'.free == s.free + [x] && s'.returning == s.returning && s'.returnCount == s.returnCount + 1
      && s'.contexts == s.contexts[c := s.contexts[c].(stage := Gone)]
      && s'.sessions == s.sessions[x := session.(returnings := session.returnings + 1)]
  {
  }

  /**
   * After every run: while a session is out of use the accept loop issues the last one of the pool, with one
   * reference for the issue and one for the accept it leaves pending, and goes on from there.
   */
  lemma AcceptPosts(n: nat, events: seq<Event>)
    requires var s := Exec(Init(n), events); s.main in {Idle, Loop} && s.issueCount - s.returnCount < n
    ensures var s := Exec(Init(n), events);
      var start := if s.main == Idle then [MainStep(true)] else [];
      && s.free != [] && s.free[|s.free| - 1] < |s.sessions|
      && var x := s.free[|s.free| - 1];
        Exec(Init(n), events + start + [MainStep(true)] + [MainStep(true)] + [MainStep(true)])
        == s.(contexts := s.contexts + [Context(x, Accept, Pending)], free := s.free[..|s.free| - 1],
            sessions := s.sessions[x := s.sessions[x].(refs := 2, issueRef := true, issues := s.sessions[x].issues + 1)],
            issueCount := s.issueCount + 1, main := Loop)
  {
    hide Exec, Do, Inv;
    AlwaysInv(n, events);
    var s := Exec(Init(n), events);
    assert events + [] == events;
    ExecNext(n, events, MainStep(true));
    IdleStep(s);
    var start := if s.main == Idle then [MainStep(true)] else [];
    assert Exec(Init(n), events + start) == s.(main := Loop);
    ExecNext(n, events + start, MainStep(true));
    ExecNext(n, events + start + [MainStep(true)], MainStep(true));
    ExecNext(n, events + start + [MainStep(true)] + [MainStep(true)], MainStep(true));
    LoopSteps(s);
  }

  lemma IdleStep(s: State)
    requires Inv(s)
    ensures s.main == Idle ==> Do(s, MainStep(true)) == s.(main := Loop)
    ensures s.main == Loop ==> s == s.(main := Loop)
  {
  }

  lemma LoopSteps(s: State)
    requires Inv(s) && s.main in {Idle, Loop} && s.issueCount - s.returnCount < |s.sessions|
    ensures s.free != [] && s.free[|s.free| - 1] < |s.sessions|
    ensures var x := s.free[|s.free| - 1];
      Do(Do(Do(s.(main := Loop), MainStep(true)), MainStep(true)), MainStep(true))
      == s.(contexts := s.contexts + [Context(x, Accept, Pending)], free := s.free[..|s.free| - 1],
          sessions := s.sessions[x := s.sessions[x].(refs := 2, issueRef := true, issues := s.sessions[x].issues + 1)],
          issueCount := s.issueCount + 1, main := Loop)
  {
    var x := s.free[|s.free| - 1];
    PopCounts(s.free, x);
    assert SessionInv(s, x);
    hide SessionInv, Owned, Live, Tokens, HandleDo, CompleteDo, ReturnDo;
    var ctx := Context(x, Accept, Fresh(Main));
    var one := s.sessions[x].(refs := 1, issueRef := true, issues := s.sessions[x].issues + 1);
    var s1 := s.(free := s.free[..|s.free| - 1], issueCount := s.issueCount + 1, sessions := s.sessions[x := one], main := Issued(x));
    assert Do(s.(main := Loop), MainStep(true)) == s1;
    var s2 := s1.(sessions := s.sessions[x := one.(refs := 2)], contexts := s.contexts + [ctx], main := Await(|s.contexts|));
    assert s1.sessions[x := one.(refs := 2)] == s2.sessions;
    assert Do(s1, MainStep(true)) == s2;
    assert Staged(s2.contexts, |s.contexts|, Pending) == s.contexts + [ctx.(stage := Pending)];
  }

  // Runs in which nothing goes wrong

  /** Everything completes in full and every call is accepted. */
  predicate Good(e: Event) {
    match e
    case MainStep(ok) => ok
    case Complete(_, outcome) => outcome == Full
    case Handle(_, ok) => ok
    case Return(_) => true
  }

  predicate DoesIo(ctx: Context) {
    || ctx.stage.TryPost? || ctx.stage.Constructing?
    || (ctx.kind in {PreRecv, Recv, Send} && (ctx.stage == Pending || ctx.stage.Fresh?))
  }

  /** A context of a run in which nothing went wrong: nobody is closing, and whoever does I/O is connected. */
  predicate CalmContext(s: State, ctx: Context) {
    && ctx.session < |s.sessions| && ctx.kind != Disconnect
    && ctx.stage !in {Closing, ConstructingClose, ReleasingIssue} && !ctx.stage.DropChild?
    && (DoesIo(ctx) ==> s.sessions[ctx.session].connected)
  }

  predicate Calm(s: State) {
    && !s.main.Drop?
    && forall c :: 0 <= c < |s.contexts| ==> CalmContext(s, s.contexts[c])
  }

  /** Nobody's connected flag is taken away. */
  predicate StillConnected(s: State, s': State) {
    |s.sessions| == |s'.sessions| && forall x :: 0 <= x < |s.sessions| && s.sessions[x].connected ==> s'.sessions[x].connected
  }

  /** Only contexts that change or are new need a look, as long as nobody is disconnected. */
  lemma CalmAfter(s: State, s': State)
    requires Calm(s) && StillConnected(s, s') && !s'.main.Drop?
    requires forall d :: 0 <= d < |s'.contexts| ==> (d < |s.contexts| && s'.contexts[d] == s.contexts[d]) || CalmContext(s', s'.contexts[d])
    ensures Calm(s')
  {
    forall d | 0 <= d < |s'.contexts|
      ensures CalmContext(s', s'.contexts[d])
    {
      if d < |s.contexts| && s'.contexts[d] == s.contexts[d] {
        assert CalmContext(s, s.contexts[d]);
      }
    }
  }

  lemma MainCalm(s: State)
    requires Inv(s) && Calm(s)
    ensures Calm(MainDo(s, true)) && StillConnected(s, MainDo(s, true))
  {
    hide SessionInv, Live, Tokens;
    var s' := MainDo(s, true);
    forall d | 0 <= d < |s'.contexts|
      ensures (d < |s.contexts| && s'.contexts[d] == s.contexts[d]) || CalmContext(s', s'.contexts[d])
    {
      if d < |s.contexts| {
        assert CalmContext(s, s.contexts[d]);
      }
    }
    CalmAfter(s, s');
  }

  lemma CompleteCalm(s: State, c: nat)
    requires Calm(s)
    ensures Calm(CompleteDo(s, c, Full)) && StillConnected(s, CompleteDo(s, c, Full))
  {
    if c < |s.contexts| {
      assert CalmContext(s, s.contexts[c]);
      CalmAfter(s, CompleteDo(s, c, Full));
    }
  }

  lemma ReleaseCalm(s: State, x: nat)
    requires Calm(s) && x < |s.sessions|
    ensures Calm(Release(s, x)) && StillConnected(s, Release(s, x))
  {
    CalmAfter(s, Release(s, x));
  }

  lemma HandleCalm(s: State, c: nat)
    requires Inv(s) && Calm(s)
    ensures Calm(HandleDo(s, c, true)) && StillConnected(s, HandleDo(s, c, true))
  {
    hide SessionInv, Live, Tokens, Pooled, MainOwned, Release;
    if c < |s.contexts| {
      assert CalmContext(s, s.contexts[c]) && Owned(s, c);
      var s' := HandleDo(s, c, true);
      match s.contexts[c].stage
      case Accepting => CalmAfter(s, s');
      case TryPost(_, _) => CalmAfter(s, s');
      case Constructing(_, _) => CalmAfter(s, s');
      case AwaitCall(child, _) =>
        assert CalmContext(s, s.contexts[child]);
        CalmAfter(s, s');
      case Deleting =>
        CalmAfter(s, AtStage(s, c, Gone));
        ReleaseCalm(AtStage(s, c, Gone), s.contexts[c].session);
      case _ =>
    }
  }

  lemma CalmStep(s: State, e: Event)
    requires Inv(s) && Calm(s) && Good(e)
    ensures Calm(Do(s, e)) && StillConnected(s, Do(s, e))
  {
    hide Inv, MainDo, CompleteDo, HandleDo;
    match e
    case MainStep(ok) => MainCalm(s);
    case Complete(c, outcome) => CompleteCalm(s, c);
    case Handle(c, ok) => HandleCalm(s, c);
    case Return(x) => CalmAfter(s, ReturnDo(s, x));
  }

  lemma {:induction false} AlwaysCalm(n: nat, events: seq<Event>)
    requires forall i :: 0 <= i < |events| ==> Good(events[i])
    ensures Calm(Exec(Init(n), events))
  {
    hide Inv, Do, Good, Calm;
    if events == [] {
      assert Calm(Init(n)) by {
        CalmInit(n);
      }
    } else {
      var front := events[..|events| - 1];
      assert forall i :: 0 <= i < |front| ==> Good(front[i]) by {
        assert forall i :: 0 <= i < |front| ==> front[i] == events[i];
      }
      AlwaysCalm(n, front);
      AlwaysInv(n, front);
      CalmStep(Exec(Init(n), front), events[|events| - 1]);
    }
  }

  lemma CalmInit(n: nat)
    ensures Calm(Init(n))
  {
  }

  /** While everything completes in full and every call is accepted, no session is ever disconnected, and none asks to be. */
  lemma {:induction false} NobodyDisconnected(n: nat, events: seq<Event>, more: seq<Event>)
    requires forall i :: 0 <= i < |events + more| ==> Good((events + more)[i])
    ensures StillConnected(Exec(Init(n), events), Exec(Init(n), events + more))
    ensures var s := Exec(Init(n), events + more); forall c :: 0 <= c < |s.contexts| ==> s.contexts[c].kind != Disconnect
  {
    AlwaysCalm(n, events + more);
    var s := Exec(Init(n), events + more);
    forall c | 0 <= c < |s.contexts|
      ensures s.contexts[c].kind != Disconnect
    {
      assert CalmContext(s, s.contexts[c]);
    }
    hide Inv, Do, Good, Calm;
    if more == [] {
      assert events + more == events;
    } else {
      var (front, last) := (more[..|more| - 1], more[|more| - 1]);
      assert events + more == (events + front) + [last];
      assert forall i :: 0 <= i < |events + front| ==> Good((events + front)[i]) by {
        assert forall i :: 0 <= i < |events + front| ==> (events + front)[i] == (events + more)[i];
      }
      NobodyDisconnected(n, events, front);
      AlwaysCalm(n, events + front);
      AlwaysInv(n, events + front);
      assert (events + more)[|events + front|] == last;
      CalmStep(Exec(Init(n), events + front), last);
      ExecNext(n, events + front, last);
    }
  }
}
