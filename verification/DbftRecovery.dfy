/**
 What recovery messages are for: a node that holds the proposal of its view, with its transactions, and
 learns of enough commits from a recovery message decides the block.
 */
module DbftRecovery {
  import opened Wrappers
  import opened DbftTypes
  import opened DbftState
  import opened DbftSteps

  /** The node holds the proposal of its view and all its transactions. */
  predicate HasBlock(s: State) {
    s.primary < |s.prep| && s.prep[s.primary].Some? && Full(s)
  }

  /** Another block is decided. */
  predicate Decided(s: State, s': State) {
    |s'.log.decided| > |s.log.decided|
  }

  /** Still in the same view with the same proposal, and no commit is lost. */
  ghost predicate Stays(s: State, s': State) {
    && HasBlock(s') && s'.height == s.height && s'.view == s.view && s'.primary == s.primary && s'.current == s.current
    && InView(s.commits, s.view) <= InView(s'.commits, s.view)
  }

  lemma {:induction false} CommitsStay(c: Config, s: State, env: Env)
    requires Formed(c, s) && HasBlock(s)
    ensures var r := AfterCommits(c, s, env); Decided(s, r) || (r == s && |InView(s.commits, s.view)| < M(c.n))
  {
  }

  lemma {:induction false} PreparationsStay(c: Config, s: State, env: Env)
    requires Formed(c, s) && HasBlock(s) && c.me >= 0
    ensures var r := AfterPreparations(c, s, env); Decided(s, r) || Stays(s, r)
  {
    if CanSign(c, s) {
      CommitsStay(c, Signing(c, s), env);
    }
  }

  lemma {:induction false} ResponseStays(c: Config, s: State, p: Payload, env: Env)
    requires Formed(c, s) && HasBlock(s) && p.body.PrepareResponse?
    ensures var r := AfterReceiving(c, s, p, env); Decided(s, r.now) || (Stays(s, r.now) && !r.relapsed)
  {
    if Handles(c, s, p) {
      var s' := Met(s, p);
      if KeepsResponse(c, s', p) && c.me >= 0 && !Committed(c, s') {
        PreparationsStay(c, s'.(prep := s'.prep[p.index := Some(p)]), env);
      }
    }
  }

  lemma {:induction false} ResponsesStay(c: Config, s: State, ps: seq<Payload>, msg: Payload, env: Env)
    requires Formed(c, s) && HasBlock(s) && forall p :: p in ps ==> IsPart(p, msg) && p.body.PrepareResponse?
    ensures var r := AfterReplay(c, s, ps, msg, env); Decided(s, r.now) || (Stays(s, r.now) && !r.relapsed)
    decreases |ps|
  {
    hide AfterReceiving, IsPart;
    if ps != [] {
      assert IsPart(ps[0], msg);
      ResponseStays(c, s, ps[0], env);
      var r := AfterReceiving(c, s, ps[0], env);
      if !Decided(s, r.now) {
        ResponsesStay(c, r.now, ps[1..], msg, env);
      }
    }
  }

  /** A valid commit for the proposal of this node. */
  predicate ForBlock(c: Config, s: State, p: Payload) {
    && p.body.Commit? && 0 <= p.index < c.n && p.height == s.height && p.view == s.view
    && Verifies(p, s.Block(c.prevHash))
  }

  lemma {:induction false} CommitCounts(c: Config, s: State, p: Payload, env: Env)
    requires Formed(c, s) && HasBlock(s) && ForBlock(c, s, p)
    ensures var r := AfterReceiving(c, s, p, env);
      || Decided(s, r.now)
      || (Stays(s, r.now) && !r.relapsed && p.index in InView(r.now.commits, s.view) && |InView(r.now.commits, s.view)| < M(c.n))
  {
    var s' := Met(s, p);
    CommitsStay(c, s'.(commits := s'.commits[p.index := Some(p)]), env);
  }

  /** The validators of these payloads. */
  function Indices(ps: seq<Payload>): set<nat> {
    set p | p in ps && p.index >= 0 :: p.index
  }

  lemma {:induction false} CommitsDecide(c: Config, s: State, ps: seq<Payload>, msg: Payload, env: Env)
    requires Formed(c, s) && HasBlock(s) && ps != [] && forall p :: p in ps ==> IsPart(p, msg) && ForBlock(c, s, p)
    requires |InView(s.commits, s.view) + Indices(ps)| >= M(c.n)
    ensures Decided(s, AfterReplay(c, s, ps, msg, env).now)
    decreases |ps|
  {
    hide AfterReceiving, IsPart, Formed;
    var p, rest := ps[0], ps[1..];
    assert IsPart(p, msg) && ForBlock(c, s, p);
    CommitCounts(c, s, p, env);
    var r := AfterReceiving(c, s, p, env).now;
    if !Decided(s, r) {
      var now := InView(r.commits, s.view);
      assert Indices(ps) == Indices(rest) + {p.index} && now + {} == now && Indices([]) == {};
      Subset(InView(s.commits, s.view) + Indices(ps), now + Indices(rest));
      if rest != [] {
        forall q | q in rest ensures IsPart(q, msg) && ForBlock(c, r, q) { assert q in ps; }
        CommitsDecide(c, r, rest, msg, env);
      }
    }
  }

  lemma Subset(a: set<nat>, b: set<nat>)
    requires a <= b
    ensures |a| <= |b|
  {
    assert b == a + (b - a);
  }

  /** The commits decide in the end, if the preparations did not and left the node with the proposal. */
  lemma {:induction false} PartsDecide(c: Config, s: State, held: State, msg: Payload, env: Env)
    requires Formed(c, s) && msg.body.Recovery? && msg.view == held.view && Formed(c, held)
    requires var r := if Recovers(c, s, msg) then AfterPreparing(c, s, msg, env) else Left(s, false);
      Decided(s, r.now) || (Stays(held, r.now) && !r.relapsed)
    requires msg.body.commits != [] && forall p :: p in msg.body.commits ==> ForBlock(c, held, p)
    requires |InView(held.commits, held.view) + Indices(msg.body.commits)| >= M(c.n)
    ensures Decided(s, AfterParts(c, s, msg, env).now)
  {
    hide AfterReplay, AfterPreparing, Recovers;
    var r := if Recovers(c, s, msg) then AfterPreparing(c, s, msg, env) else Left(s, false);
    assert r.now.log.decided <= AfterParts(c, s, msg, env).now.log.decided;
    if !Decided(s, r.now) {
      Subset(InView(held.commits, held.view) + Indices(msg.body.commits), InView(r.now.commits, held.view) + Indices(msg.body.commits));
      CommitsDecide(c, r.now, msg.body.commits, msg, env);
    }
  }

  /**
   Whether it has committed, is about to leave its view or not: with the proposal in hand, a recovery message
   of its view with valid commits, which together with those it has are enough, makes a node decide.
   */
  lemma {:induction false} RecoveryDecides(c: Config, s: State, msg: Payload, env: Env)
    requires Formed(c, s) && HasBlock(s) && msg.body.Recovery? && Handles(c, s, msg) && msg.view == s.view
    requires forall p :: p in msg.body.responses ==> p.body.PrepareResponse?
    requires msg.body.commits != [] && forall p :: p in msg.body.commits ==> ForBlock(c, s, p)
    requires |InView(s.commits, s.view) + Indices(msg.body.commits)| >= M(c.n)
    ensures Decided(s, AfterReceiving(c, s, msg, env).now)
  {
    hide AfterReplay, AfterParts;
    var s' := Met(s, msg);
    ResponsesStay(c, s', msg.body.responses, msg, env);
    PartsDecide(c, s', s', msg, env);
  }

  // ---- a node without the proposal ----

  /** The request is that of the primary of this view, it verifies, its transactions are known and the block is accepted. */
  ghost predicate Acceptable(c: Config, s: State, p: Payload, env: Env)
    requires Formed(c, s)
  {
    && p.body.PrepareRequest? && p.height == s.height && p.view == s.view && p.index == s.primary
    && s.prep[s.primary].None? && c.me != s.primary && env.verifiesRequest(p)
    && Full(WithRequest(s, p, env)) && Accepts(c, WithRequest(s, p, env), env)
  }

  lemma {:induction false} RequestBrings(c: Config, s: State, p: Payload, env: Env)
    requires Formed(c, s) && Acceptable(c, s, p, env)
    ensures var r, s' := AfterReceiving(c, s, p, env), WithRequest(s, p, env);
      Decided(s, r.now) || (Stays(s', r.now) && !r.relapsed)
  {
    var s' := WithRequest(Met(s, p), p, env);
    var t := AfterCheck(c, s', env);
    if c.me >= 0 {
      PreparationsStay(c, WithOwn(c, t, OwnResponse(c, t)), env);
    }
  }

  /**
   A node that has missed everything in its view: the request in a recovery message, when it can be accepted,
   and the commits in it, when there are enough, make it decide.
   */
  lemma {:induction false} RecoveryCompletes(c: Config, s: State, msg: Payload, env: Env)
    requires Formed(c, s) && msg.body.Recovery? && Handles(c, s, msg) && msg.view == s.view
    requires Recovers(c, Met(s, msg), msg)
    requires msg.body.request.Some? && Acceptable(c, s, msg.body.request.value, env)
    requires forall p :: p in msg.body.responses ==> p.body.PrepareResponse?
    requires msg.body.commits != []
    requires forall p :: p in msg.body.commits ==> ForBlock(c, WithRequest(s, msg.body.request.value, env), p)
    requires |InView(s.commits, s.view) + Indices(msg.body.commits)| >= M(c.n)
    ensures Decided(s, AfterReceiving(c, s, msg, env).now)
  {
    hide AfterReplay, AfterParts, AfterReceiving;
    var p, s' := msg.body.request.value, Met(s, msg);
    RequestBrings(c, s', p, env);
    ReplayStep(c, s', [p], 0, msg, env);
    var q := AfterReceiving(c, s', p, env).now;
    ReplayEnds(c, q, [p], msg, env);
    if !Decided(s', q) {
      ResponsesStay(c, q, msg.body.responses, msg, env);
    }
    PartsDecide(c, s', WithRequest(s', p, env), msg, env);
    WholeIsParts(c, s, msg, env);
  }

  lemma {:induction false} WholeIsParts(c: Config, s: State, msg: Payload, env: Env)
    requires Formed(c, s) && msg.body.Recovery? && Handles(c, s, msg) && msg.view == s.view
    ensures AfterReceiving(c, s, msg, env) == AfterParts(c, Met(s, msg), msg, env)
  {
    hide AfterParts;
  }

  // ---- change views ----

  /** The recovery message of a node holds change views for earlier views than its own only. */
  lemma {:induction false} RecoveryAsksForLess(c: Config, s: State)
    requires StateOk(c, s)
    ensures forall p :: p in RecoveryOf(c, s).body.changeViews ==> p.body.ChangeView? && p.body.newView < s.view
  {
    assert Mention(s);
    forall p | p in RecoveryOf(c, s).body.changeViews ensures p.body.ChangeView? && p.body.newView < s.view {
      assert Some(p) in s.lastChangeViews;
    }
  }

  /** Asking for a view leads to no other one, and decides nothing. */
  lemma {:induction false} AskedMoves(c: Config, s: State, p: Payload, env: Env)
    requires Formed(c, s) && p.body.ChangeView?
    ensures var r := AfterReceiving(c, s, p, env).now;
      && r.height == s.height && (r.view == s.view || r.view == p.body.newView)
      && r.log.sent == s.log.sent && r.log.signed == s.log.signed && r.log.decided == s.log.decided
  {
  }

  lemma {:induction false} AskedBelow(c: Config, s: State, ps: seq<Payload>, msg: Payload, env: Env, view: nat)
    requires Formed(c, s) && s.view < view
    requires forall p :: p in ps ==> IsPart(p, msg) && p.body.ChangeView? && p.body.newView < view
    ensures var r := AfterReplay(c, s, ps, msg, env).now;
      && r.height == s.height && r.view < view
      && r.log.sent == s.log.sent && r.log.signed == s.log.signed && r.log.decided == s.log.decided
    decreases |ps|
  {
    hide AfterReceiving, IsPart;
    if ps != [] {
      assert IsPart(ps[0], msg);
      AskedMoves(c, s, ps[0], env);
      var r := AfterReceiving(c, s, ps[0], env);
      if !r.relapsed {
        AskedBelow(c, r.now, ps[1..], msg, env, view);
      }
    }
  }

  /**
   So a node of an earlier view stays in an earlier view, and its preparations, signatures and decisions stay
   what they were: the recovery message of a node helps nobody to come to its view.
   */
  lemma {:induction false} RecoveryLeavesBehind(c: Config, s: State, msg: Payload, env: Env)
    requires Formed(c, s) && msg.body.Recovery? && s.view < msg.view
    requires forall p :: p in msg.body.changeViews ==> p.body.ChangeView? && p.body.newView < msg.view
    ensures var r := AfterReceiving(c, s, msg, env).now;
      && r.height == s.height && r.view < msg.view
      && r.log.sent == s.log.sent && r.log.signed == s.log.signed && r.log.decided == s.log.decided
  {
    hide AfterReplay;
    if Handles(c, s, msg) && !Committed(c, s) {
      var s' := Met(s, msg);
      AskedBelow(c, s', msg.body.changeViews, msg, env, msg.view);
      var r := AfterReplay(c, s', msg.body.changeViews, msg, env);
      assert AfterParts(c, r.now, msg, env) == Left(r.now, false);
      assert AfterReceiving(c, s, msg, env) == AfterRecovery(c, s', msg, env);
    }
  }

  /** Change views of M validators that ask for one view bring a node there that has not signed. */
  lemma {:induction false} AskedTogether(c: Config, s: State, ps: seq<Payload>, msg: Payload, env: Env, view: nat, from: nat)
    requires Formed(c, s) && from < view < 255 && (s.view == view || (s.view == from && !Committed(c, s) && NoneBeyond(c, s, view)))
    requires forall p :: p in ps ==> IsPart(p, msg) && Asks(c, s, p, view, from)
    requires s.view == from ==> ps != [] && |Asking(s.changeViews, view) + Indices(ps)| >= M(c.n)
    ensures AfterReplay(c, s, ps, msg, env).now.view == view
    decreases |ps|
  {
    hide IsPart, AfterReceiving, NoneBeyond;
    if ps != [] {
      var p, rest := ps[0], ps[1..];
      assert IsPart(p, msg) && Asks(c, s, p, view, from);
      var r := AfterReceiving(c, s, p, env);
      AskedOnce(c, s, p, env, view, from);
      assert Indices(ps) == Indices(rest) + {p.index} && Indices([]) == {};
      if r.now.view == from {
        var now := Asking(r.now.changeViews, view);
        assert now + {} == now;
        Subset(Asking(s.changeViews, view) + Indices(ps), now + Indices(rest));
      }
      if r.now.view == view || rest != [] {
        forall q | q in rest ensures IsPart(q, msg) && Asks(c, r.now, q, view, from) { assert q in ps; }
        AskedTogether(c, r.now, rest, msg, env, view, from);
      }
    }
  }

  /** A validator in the view `from` asks for the view. */
  predicate Asks(c: Config, s: State, p: Payload, view: nat, from: nat) {
    && p.height == s.height && p.view == from && 0 <= p.index < c.n && p.body.ChangeView? && p.body.newView == view
  }

  /** The view is the latest that anybody asked for. */
  ghost predicate NoneBeyond(c: Config, s: State, view: nat)
    requires Formed(c, s)
  {
    forall k :: 0 <= k < c.n && s.changeViews[k].Some? && s.changeViews[k].value.body.ChangeView? ==> s.changeViews[k].value.body.newView <= view
  }

  lemma {:induction false} AskedOnce(c: Config, s: State, p: Payload, env: Env, view: nat, from: nat)
    requires Formed(c, s) && from < view < 255 && Asks(c, s, p, view, from)
    requires s.view == view || (s.view == from && !Committed(c, s) && NoneBeyond(c, s, view))
    ensures var r := AfterReceiving(c, s, p, env);
      && r.now.height == s.height && !r.relapsed
      && (s.view == view ==> r.now.view == view)
      && (s.view == from ==> Moving(c, s, r.now, p, view))
  {
    hide Asking, Refilled;
    if s.view == from {
      var s' := Met(s, p);
      var t := s'.(changeViews := s'.changeViews[p.index := Some(p)]);
      assert AfterReceiving(c, s, p, env) == LeftAfter(c, s, AfterAsking(c, t, view));
      MovesOrStays(c, s, t, p, view);
    }
  }

  /** The view is entered, or another validator asks for it. */
  ghost predicate Moving(c: Config, s: State, s': State, p: Payload, view: nat)
    requires Formed(c, s) && Formed(c, s')
  {
    || s'.view == view
    || (&& s'.view == s.view && !Committed(c, s') && NoneBeyond(c, s', view)
        && Asking(s.changeViews, view) + {p.index} <= Asking(s'.changeViews, view) && |Asking(s'.changeViews, view)| < M(c.n))
  }

  lemma {:induction false} MovesOrStays(c: Config, s: State, t: State, p: Payload, view: nat)
    requires Formed(c, s) && s.view < view && Asks(c, s, p, view, s.view) && !Committed(c, s) && NoneBeyond(c, s, view)
    requires t == s.(changeViews := s.changeViews[p.index := Some(p)], log := t.log, lastSeen := t.lastSeen, met := t.met) && Formed(c, t)
    ensures Moving(c, s, AfterAsking(c, t, view), p, view)
  {
  }
}
