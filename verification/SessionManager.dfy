/** The session manager as an object: the free list and the two counters its lock protects. */
module Manager {
  import opened SessionPool

  /** One turn of the accept loop: a reference for issuing and, if the post is accepted, one for its context. */
  function IssueOne(session: Session, posted: bool): Session {
    session.(refs := session.refs + (if posted then 2 else 1), issueRef := true, refused := session.refused || !posted,
      issues := session.issues + 1)
  }

  datatype Accepted = Accepted(sessions: seq<Session>, free: seq<nat>, ok: bool)

  /** The accept loop: sessions are taken from the back of the list until none is left or a post is refused. */
  function AcceptAll(sessions: seq<Session>, free: seq<nat>, posts: seq<bool>): Accepted
    requires |posts| >= |free| && forall i :: 0 <= i < |free| ==> free[i] < |sessions|
    decreases |free|
  {
    if free == [] then Accepted(sessions, [], true)
    else
      var (x, rest) := (free[|free| - 1], free[..|free| - 1]);
      var sessions' := sessions[x := IssueOne(sessions[x], posts[0])];
      if posts[0] then AcceptAll(sessions', rest, posts[1..]) else Accepted(sessions', rest, false)
  }

  predicate Distinct(free: seq<nat>) {
    forall i, j :: 0 <= i < j < |free| ==> free[i] != free[j]
  }

  lemma PushedTwice(free: seq<nat>, x: nat)
    requires Distinct(free)
    ensures Distinct(free + [x]) <==> x !in free
  {
    if x in free {
      var i :| 0 <= i < |free| && free[i] == x;
      assert (free + [x])[i] == (free + [x])[|free|];
    }
  }

  /** How many sessions an accept loop issues: all, or up to the first refused post. */
  function IssuedCount(n: nat, posts: seq<bool>): (k: nat)
    requires |posts| >= n
    ensures k <= n && (forall i :: 0 <= i < k - 1 ==> posts[i]) && (k < n ==> 0 < k && !posts[k - 1])
  {
    if n == 0 then 0 else if posts[0] then 1 + IssuedCount(n - 1, posts[1..]) else 1
  }

  /** The list loses the issued sessions from its back, and the loop succeeds exactly when no post it made was refused. */
  lemma {:induction false} AcceptTakes(sessions: seq<Session>, free: seq<nat>, posts: seq<bool>)
    requires |posts| >= |free| && forall i :: 0 <= i < |free| ==> free[i] < |sessions|
    ensures var (a, k) := (AcceptAll(sessions, free, posts), IssuedCount(|free|, posts));
      && |a.sessions| == |sessions| && a.free == free[..|free| - k]
      && (a.ok <==> k == 0 || posts[k - 1])
    decreases |free|
  {
    if free != [] && posts[0] {
      var (x, rest) := (free[|free| - 1], free[..|free| - 1]);
      AcceptTakes(sessions[x := IssueOne(sessions[x], posts[0])], rest, posts[1..]);
    }
  }

  /** A session not on the list is not touched. */
  lemma {:induction false} AcceptSpares(sessions: seq<Session>, free: seq<nat>, posts: seq<bool>, y: nat)
    requires |posts| >= |free| && forall i :: 0 <= i < |free| ==> free[i] < |sessions|
    requires y < |sessions| && y !in free
    ensures var a := AcceptAll(sessions, free, posts); |a.sessions| == |sessions| && a.sessions[y] == sessions[y]
    decreases |free|
  {
    AcceptTakes(sessions, free, posts);
    if free != [] && posts[0] {
      var (x, rest) := (free[|free| - 1], free[..|free| - 1]);
      AcceptSpares(sessions[x := IssueOne(sessions[x], posts[0])], rest, posts[1..], y);
    }
  }

  /** The `i`-th session from the back is issued exactly once if the loop gets to it, with the outcome of its own post, and otherwise not touched. */
  lemma {:induction false} AcceptIssues(sessions: seq<Session>, free: seq<nat>, posts: seq<bool>, i: nat)
    requires |posts| >= |free| && Distinct(free) && forall i :: 0 <= i < |free| ==> free[i] < |sessions|
    requires i < |free|
    ensures var (a, y) := (AcceptAll(sessions, free, posts), free[|free| - 1 - i]);
      && |a.sessions| == |sessions|
      && a.sessions[y] == if i < IssuedCount(|free|, posts) then IssueOne(sessions[y], posts[i]) else sessions[y]
    decreases |free|
  {
    AcceptTakes(sessions, free, posts);
    if posts[0] {
      var (x, rest) := (free[|free| - 1], free[..|free| - 1]);
      var sessions' := sessions[x := IssueOne(sessions[x], posts[0])];
      if i == 0 {
        AcceptSpares(sessions', rest, posts[1..], x);
      } else {
        AcceptIssues(sessions', rest, posts[1..], i - 1);
      }
    }
  }

  /** One turn of the loop is what the steps of the main thread do, when no other thread steps in between. */
  lemma TurnIsMainSteps(s: State, posted: bool)
    requires Inv(s) && s.main == Loop && s.issueCount - s.returnCount < |s.sessions|
    ensures s.free != [] && s.free[|s.free| - 1] < |s.sessions|
    ensures var (x, s3) := (s.free[|s.free| - 1], MainDo(MainDo(MainDo(s, true), true), posted));
      var s' := if posted then s3 else MainDo(s3, true);
      && s'.sessions == s.sessions[x := IssueOne(s.sessions[x], posted)] && s'.free == s.free[..|s.free| - 1]
      && s'.issueCount == s.issueCount + 1 && s'.returnCount == s.returnCount && s'.main == (if posted then Loop else Stopped)
  {
    hide Live, Tokens, Owned;
    IssueKeeps(s);
    assert SessionInv(s, s.free[|s.free| - 1]);
    assert multiset(s.free)[s.free[|s.free| - 1]] > 0;
  }

  class SessionManager {
    const maxConnection: nat
    var sessions: seq<Session>
    var freeList: seq<nat>
    var issueCount: nat
    var returnCount: nat

    predicate Idle(x: nat)
      reads this
      requires x < |sessions|
    {
      !sessions[x].connected && sessions[x].refs == 0
    }

    ghost predicate Valid()
      reads this
    {
      && |sessions| == maxConnection
      && |freeList| + issueCount - returnCount == maxConnection
      && (forall i :: 0 <= i < |freeList| ==> freeList[i] < maxConnection && Idle(freeList[i]))
      && Distinct(freeList)
    }

    /** PrepareSessions fills the pool the runs of the session pool start from. */
    constructor (maxConnection: nat)
      ensures Valid() && this.maxConnection == maxConnection
      ensures sessions == Init(maxConnection).sessions && freeList == Init(maxConnection).free
      ensures issueCount == 0 && returnCount == 0
    {
      this.maxConnection, issueCount, returnCount := maxConnection, 0, 0;
      sessions, freeList := [], [];
      new;
      for i := 0 to maxConnection
        invariant |sessions| == |freeList| == i
        invariant sessions == Init(i).sessions && freeList == Init(i).free
        invariant issueCount == 0 && returnCount == 0
      {
        sessions := sessions + [Session(false, 0, false, false, 0, 0)];
        freeList := freeList + [i];
      }
    }

    /** Puts a session back; the assertion fires exactly when somebody is still connected or refers to it. */
    method ReturnClientSession(client: nat) returns (crashed: bool)
      requires Valid() && client < maxConnection
      modifies this
      ensures crashed <==> !old(Idle(client))
      ensures !crashed ==> (Valid() <==> client !in old(freeList))
      ensures !crashed ==>
        && freeList == old(freeList) + [client]
        && returnCount == old(returnCount) + 1 && issueCount == old(issueCount)
        && sessions == old(sessions)[client := old(sessions[client]).(returnings := old(sessions[client].returnings) + 1)]
    {
      if sessions[client].connected || sessions[client].refs != 0 {
        return true;
      }
      sessions := sessions[client := sessions[client].(connected := false, refs := 0, returnings := sessions[client].returnings + 1)];
      PushedTwice(freeList, client);
      freeList := freeList + [client];
      returnCount := returnCount + 1;
      return false;
    }

    /** The accept loop; `posts` tells which posts the system accepts. The list is never empty when a session is taken. */
    method AcceptSessions(posts: seq<bool>) returns (ok: bool)
      requires Valid() && |posts| >= |freeList|
      modifies this
      ensures Valid()
      ensures Accepted(sessions, freeList, ok) == AcceptAll(old(sessions), old(freeList), posts)
      ensures |freeList| + issueCount == |old(freeList)| + old(issueCount) && returnCount == old(returnCount)
    {
      var turn := 0;
      while issueCount - returnCount < maxConnection
        invariant Valid() && turn <= |posts| && |posts| - turn >= |freeList|
        invariant AcceptAll(sessions, freeList, posts[turn..]) == AcceptAll(old(sessions), old(freeList), posts)
        invariant |freeList| + issueCount == |old(freeList)| + old(issueCount) && returnCount == old(returnCount)
        decreases |freeList|
      {
        var client := freeList[|freeList| - 1];
        assert posts[turn..][0] == posts[turn] && posts[turn..][1..] == posts[turn + 1..];
        freeList := freeList[..|freeList| - 1];
        issueCount := issueCount + 1;
        var session := sessions[client].(refs := sessions[client].refs + 1, issueRef := true, issues := sessions[client].issues + 1);
        if !posts[turn] {
          sessions := sessions[client := session.(refused := true)];
          return false;
        }
        sessions := sessions[client := session.(refs := session.refs + 1)];
        turn := turn + 1;
      }
      return true;
    }
  }
}
