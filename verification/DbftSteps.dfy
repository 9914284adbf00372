/**
 What an event makes of the state of a node and of what it has broadcast, as functions on values: the
 reference that the handlers of module Dbft are proved against. The cached header and the payloads that were
 there when the request came, which only the proofs look at, are left aside (`Bare`).
 */
module DbftSteps {
  import opened Wrappers
  import opened DbftTypes
  import opened DbftState

  /** The state without what no later event depends on. */
  function Bare(s: State): State {
    s.(header := None, earlyPrep := [], earlyCommits := [])
  }

  ghost predicate Formed(c: Config, s: State) {
    && ConfigOk(c) && s.primary < c.n && s.view < 256
    && |s.prep| == |s.commits| == |s.changeViews| == |s.lastSeen| == c.n
  }

  // ---- questions ----

  predicate Full(s: State) {
    |s.current.txHashes| == |s.transactions|
  }

  predicate Committed(c: Config, s: State)
    requires c.me < |s.commits|
  {
    c.me >= 0 && s.commits[c.me].Some?
  }

  /** More validators than F have committed or are lost. */
  ghost predicate MoreThanF(c: Config, s: State)
    requires c.n > 0
  {
    |Filled(s.commits)| + |Lost(s.lastSeen, s.height, s.view)| > F(c.n)
  }

  ghost predicate ViewChanging(c: Config, s: State)
    requires c.me < |s.changeViews|
  {
    && c.me >= 0 && s.changeViews[c.me].Some?
    && s.changeViews[c.me].value.body.ChangeView? && s.changeViews[c.me].value.body.newView > s.view
  }

  /** A byte of view number, so that the view after 255 is 0 and is never entered. */
  function NextViewOf(c: Config, s: State): Payload {
    Payload(s.height, s.view, c.me, ChangeView(NextView(s.view)))
  }

  /** The change views once this node asks for the next view. */
  function Asked(c: Config, s: State): seq<Option<Payload>>
    requires 0 <= c.me < |s.changeViews|
  {
    s.changeViews[c.me := Some(NextViewOf(c, s))]
  }

  /** Asking for the next view is possible, and a quorum already asks for it. */
  ghost predicate Moves(c: Config, s: State)
    requires Formed(c, s)
  {
    c.me >= 0 && !MoreThanF(c, s) && s.view < 255 && |Asking(Asked(c, s), s.view + 1)| >= M(c.n)
  }

  /** The preparations in hand and the transactions allow this node to sign. */
  ghost predicate CanSign(c: Config, s: State)
    requires Formed(c, s)
  {
    Full(s) && s.prep[s.primary].Some? && |Filled(s.prep)| >= M(c.n)
  }

  /** M commits of this view are there, and all transactions. */
  ghost predicate Decides(c: Config, s: State)
    requires Formed(c, s)
  {
    Full(s) && |InView(s.commits, s.view)| >= M(c.n)
  }

  /** The callbacks accept the stored proposal. */
  predicate Accepts(c: Config, s: State, env: Env) {
    s.current.nextConsensus == env.nextConsensus && env.acceptsBlock(s.Block(c.prevHash))
  }

  // ---- views and heights ----

  /** The start of a view: nothing stored. */
  ghost function Renewed(c: Config, s: State, height: nat, view: nat): State
    requires c.me < |s.lastSeen| && c.n >= 0
  {
    s.(height := height, view := view, primary := c.primaryOf(height, view),
       current := s.current.(txHashes := []), transactions := {}, missing := [], blockSent := false,
       prep := NoPayloads(c.n), commits := NoPayloads(c.n), changeViews := NoPayloads(c.n),
       lastChangeViews := if view == 0 then NoPayloads(c.n) else Skipped(s.changeViews, view),
       lastSeen := if c.me >= 0 then s.lastSeen[c.me := Some(Seen(height, view))] else s.lastSeen)
  }

  /**
   The height of the chain after it was handed the block: it takes one with a valid witness only, others may
   have extended it, and it never falls behind.
   */
  function ChainAfter(d: Decision, env: Env): (chain: int)
    ensures chain + 1 >= d.header.height && chain >= env.chain
    ensures chain + 1 == d.header.height <==> !Joins(d, env) && env.chain < d.header.height
  {
    if env.chain >= d.header.height then env.chain
    else if Joins(d, env) then d.header.height
    else d.header.height - 1
  }

  /** A renewed view is sound exactly when the node has not spoken there. */
  lemma {:induction false} RenewedCleared(c: Config, s: State, s': State, height: nat, view: nat)
    requires StateOk(c, s) && view < 256
    requires s.height < height || (s.height == height && (s.view < view || view == 0))
    requires Bare(s') == Renewed(c, Bare(s), height, view) && AllBelow(s'.lastChangeViews, view)
    requires |s'.lastChangeViews| == c.n && s'.earlyPrep == s'.earlyCommits == NoPayloads(c.n)
    requires s'.header == None
    ensures StateOk(c, s') <==>
      || s.height < height
      || (if s.view < view then c.me < 0 || s.commits[c.me].None? else !Spoke(s.log, height))
    ensures c.me < 0 ==> !Spoke(s.log, height)
    ensures Kept(c, s'.log)
  {
    ClearedExactly(c, s, s', height, view);
  }

  /**
   Nothing on record is lost and nothing is heard. The height never falls, and without a decision it stays
   and the view does not fall.
   */
  ghost predicate Forward(s: State, s': State) {
    Onward(s, s') && s'.met == s.met
  }

  /** The same for parts of messages, which may be of validators that were not heard yet. */
  ghost predicate Onward(s: State, s': State) {
    && Grows(s.log, s'.log) && s'.log.heard == s.log.heard && s'.log.commits == s.log.commits
    && s'.height >= s.height && s.met <= s'.met && s.out <= s'.out
    && (s'.log.decided == s.log.decided ==> s'.height == s.height && s'.view >= s.view)
  }

  /** The last block decided was not taken by the chain, nor added to it by others. */
  ghost predicate Undone(before: Log, log: Log, env: Env) {
    && |log.decided| > |before.decided|
    && var d := log.decided[|log.decided| - 1]; !Joins(d, env) && env.chain < d.header.height
  }

  /** A height is started anew only after a block that did not get into the chain. */
  ghost predicate Anew(s: State, s': State, env: Env) {
    |s'.log.decided| > |s.log.decided| && s'.height == s.height ==> Undone(s.log, s'.log, env)
  }

  // ---- check.go ----

  ghost function DecisionNow(c: Config, s: State): Decision
    requires c.n > 0
  {
    DecisionOf(s, c.prevHash, M(c.n))
  }

  /** Once there are enough commits the block goes to the chain, and the height after the chain is started. */
  ghost function AfterCommits(c: Config, s: State, env: Env): (r: State)
    requires Formed(c, s)
    ensures Formed(c, r) && Forward(s, r) && Anew(s, r, env)
  {
    if !Decides(c, s) then s
    else
      var d := DecisionNow(c, s);
      Renewed(c, s.(log := s.log.(decided := s.log.decided + [d])), ChainAfter(d, env) + 1, 0)
  }

  /**
   A decided block has a valid witness exactly when the commits in it that were stored before the request,
   unchecked, sign its header; and the height is left exactly when the chain takes the block or has it.
   */
  lemma {:induction false} DecidedExactly(c: Config, s: State, env: Env)
    requires StateOk(c, s) && s.prep[s.primary].Some? && Decides(c, s)
    ensures var d, s' := DecisionNow(c, s), AfterCommits(c, s, env);
      && s'.log.decided == s.log.decided + [d] && d.header == s.Block(c.prevHash)
      && (Certified(d) <==>
        forall p :: p in d.commits && 0 <= p.index < c.n && s.earlyCommits[p.index] == Some(p) ==> Verifies(p, d.header))
      && (s'.height > s.height <==> (Certified(d) && env.addsBlock(d.header)) || env.chain >= s.height)
  {
    CertifiedExactly(c, s, DecisionNow(c, s));
  }

  function OwnCommit(c: Config, s: State): Payload {
    Payload(s.height, s.view, c.me, Commit(Signature(c.me, s.Block(c.prevHash))))
  }

  /** The node signs the header of the stored request, unless it has a commit, and broadcasts its commit. */
  ghost function Signing(c: Config, s: State): (r: State)
    requires Formed(c, s) && c.me >= 0 && s.prep[s.primary].Some?
    ensures Formed(c, r) && Forward(s, r)
  {
    if Committed(c, s) then s.(out := s.out + [s.commits[c.me].value])
    else
      s.(commits := s.commits[c.me := Some(OwnCommit(c, s))], out := s.out + [OwnCommit(c, s)],
         log := s.log.(signed := s.log.signed + {SignatureOf(s, c.prevHash)}))
  }

  lemma {:induction false} SignedIs(c: Config, s: State, header: Option<Header>)
    requires Formed(c, s) && c.me >= 0 && s.prep[s.primary].Some? && s.commits[c.me].None?
    ensures Bare(SignedState(s.(header := header), c.me, OwnCommit(c, s), SignatureOf(s, c.prevHash))) == Signing(c, Bare(s))
  {
  }

  ghost function AfterPreparations(c: Config, s: State, env: Env): (r: State)
    requires Formed(c, s) && c.me >= 0
    ensures Formed(c, r) && Forward(s, r) && Anew(s, r, env)
    ensures r.log.sent == s.log.sent
    ensures r.log.signed == s.log.signed
      + (if CanSign(c, s) && !Committed(c, s) then {SignatureOf(s, c.prevHash)} else {})
  {
    if CanSign(c, s) then AfterCommits(c, Signing(c, s), env) else s
  }

  ghost function AfterAsking(c: Config, s: State, view: nat): (r: State)
    requires Formed(c, s)
    ensures Formed(c, r) && Forward(s, r)
    ensures r.log == s.log
  {
    if !(s.view < view && |Asking(s.changeViews, view)| >= M(c.n)) then s
    else if AsksForLess(c, s, view) then Renewed(c, Calling(c, s), s.height, view)
    else Renewed(c, s, s.height, view)
  }

  /** The node has asked for a later view, but not for `view`. */
  predicate AsksForLess(c: Config, s: State, view: nat)
    requires c.me < |s.changeViews|
  {
    && c.me >= 0 && s.changeViews[c.me].Some?
    && s.changeViews[c.me].value.body.ChangeView? && s.changeViews[c.me].value.body.newView < view
  }

  /** The node asks all others for the next view. */
  function Calling(c: Config, s: State): State
    requires 0 <= c.me < |s.changeViews|
  {
    s.(changeViews := Asked(c, s), out := s.out + [NextViewOf(c, s)])
  }

  // ---- send.go ----

  /** The transactions of the proposal are taken from the pool as far as it has them. */
  ghost function Refilled(s: State, env: Env): State {
    var unknown := Without(s.current.txHashes, s.transactions + env.known);
    s.(transactions := s.transactions + (set h | h in s.current.txHashes && h in env.known),
       missing := if unknown == [] then s.missing else unknown)
  }

  /** The node asks for the next view, or, when too many are lost, for recovery. */
  ghost function AfterRefusal(c: Config, s: State, env: Env): (r: State)
    requires Formed(c, s)
    ensures Formed(c, r) && Forward(s, r)
    ensures r.log == s.log && (r.view != s.view <==> Moves(c, s))
    ensures Moves(c, s) ==> r.height == s.height && r.view == s.view + 1 && r.commits == NoPayloads(c.n)
  {
    if c.me < 0 then s
    else if MoreThanF(c, s) then
      (if s.prep[s.primary].Some? && !Full(s) then Refilled(s, env) else s)
      .(out := s.out + [Payload(s.height, s.view, c.me, RecoveryRequest)])
    else if Moves(c, s) then Renewed(c, Calling(c, s), s.height, s.view + 1)
    else Calling(c, s)
  }

  /** The payloads that are stored, in the order of the validators. */
  function Contents(s: seq<Option<Payload>>): (ps: seq<Payload>)
    ensures forall p :: p in ps <==> Some(p) in s
  {
    if s == [] then []
    else Contents(s[..|s| - 1]) + (if s[|s| - 1].Some? then [s[|s| - 1].value] else [])
  }

  lemma OthersStored(s: seq<Option<Payload>>, i: nat)
    requires i < |s|
    ensures forall p :: p in Contents(s[i := None]) <==> exists k :: 0 <= k < |s| && k != i && s[k] == Some(p)
  {
    var others := s[i := None];
    forall p ensures Some(p) in others <==> exists k :: 0 <= k < |s| && k != i && s[k] == Some(p) {
      if k :| 0 <= k < |s| && k != i && s[k] == Some(p) { assert others[k] == Some(p); }
      if k :| 0 <= k < |others| && others[k] == Some(p) { assert k != i && s[k] == Some(p); }
    }
  }

  /** What this node knows: preparations, change views of skipped views, and, once it committed, commits. */
  function RecoveryOf(c: Config, s: State): Payload
    requires s.primary < |s.prep| && c.me < |s.commits|
  {
    Payload(s.height, s.view, c.me, Recovery(Contents(s.lastChangeViews), s.prep[s.primary],
      Contents(s.prep[s.primary := None]), if Committed(c, s) then Contents(s.commits) else []))
  }

  ghost function Recovering(c: Config, s: State): State
    requires s.primary < |s.prep| && c.me < |s.commits|
  {
    s.(out := s.out + [RecoveryOf(c, s)])
  }

  /** Only the F validators after the sender answer, so that not everybody does. */
  ghost predicate Answers(c: Config, sender: nat)
    requires c.n > 0
  {
    c.me >= 0 && 1 <= (c.me - sender) % c.n <= F(c.n)
  }

  function Successor(n: nat, k: nat, i: nat): nat
    requires n > 0
  {
    (k + i) % n
  }

  lemma {:induction false} SuccessorExactly(n: nat, k: nat, i: nat, me: int)
    requires 0 < i < n && me < n
    ensures Successor(n, k, i) == me <==> me >= 0 && (me - k) % n == i
  {
    var q := (k + i) / n;
    assert k + i == n * q + (k + i) % n;
    if Successor(n, k, i) == me {
      assert me - k == n * (-q) + i by { Negated(n, q); }
      RemainderIs(me - k, n, -q, i);
    }
    if me >= 0 && (me - k) % n == i {
      var p := (me - k) / n;
      assert k + i == n * (-p) + me by { Negated(n, p); }
      RemainderIs(k + i, n, -p, me);
    }
  }

  lemma {:induction false} NoneAnswers(c: Config, sender: nat)
    requires c.n > 0 && c.me < c.n && forall j: nat :: 1 <= j <= F(c.n) ==> Successor(c.n, sender, j) != c.me
    ensures !Answers(c, sender)
  {
    if Answers(c, sender) {
      SuccessorExactly(c.n, sender, (c.me - sender) % c.n, c.me);
    }
  }

  lemma Negated(a: int, b: int)
    ensures a * -b == -(a * b)
  {
  }

  /** The proposal takes the transactions of the pool and a later timestamp. */
  function Proposal(last: Request, env: Env): Request {
    Request(if env.now > last.timestamp + env.increment then env.now else last.timestamp + env.increment,
      env.nonce, env.nextConsensus, env.pool)
  }

  ghost function AfterCallForRecovery(c: Config, s: State, msg: Payload): (r: State)
    requires Formed(c, s) && 0 <= msg.index
    ensures Formed(c, r) && Forward(s, r) && r.log == s.log
  {
    if Committed(c, s) || Answers(c, msg.index) then Recovering(c, s) else s
  }

  /** The node's own preparation is stored, broadcast and on record. */
  function WithOwn(c: Config, s: State, p: Payload): State
    requires 0 <= c.me < |s.prep|
  {
    s.(prep := s.prep[c.me := Some(p)], out := s.out + [p], log := s.log.(sent := s.log.sent + Votes(p)))
  }

  lemma {:induction false} PreparedIs(c: Config, s: State, p: Payload)
    requires 0 <= c.me < |s.prep|
    ensures Bare(Prepared(s, c.me, p)) == WithOwn(c, Bare(s), p)
  {
  }

  ghost function Proposing(c: Config, s: State, env: Env): State
    requires Formed(c, s) && c.me >= 0
  {
    var s' := s.(current := Proposal(s.current, env), transactions := s.transactions + (set h | h in env.pool));
    WithOwn(c, s', Payload(s.height, s.view, c.me, PrepareRequest(s'.current)))
  }

  ghost function AfterProposal(c: Config, s: State, env: Env): (r: State)
    requires Formed(c, s) && c.me >= 0
    ensures Formed(c, r) && Forward(s, r) && Anew(s, r, env)
  {
    AfterPreparations(c, Proposing(c, s, env), env)
  }

  function OwnResponse(c: Config, s: State): Payload
    requires s.primary < |s.prep| && s.prep[s.primary].Some?
  {
    Payload(s.height, s.view, c.me, PrepareResponse(IdOf(s.prep[s.primary].value)))
  }

  lemma {:induction false} RefilledIs(s: State, env: Env)
    ensures Bare(Refilled(s, env)) == Refilled(Bare(s), env)
  {
  }

  ghost function AfterAnswer(c: Config, s: State, env: Env): (r: State)
    requires Formed(c, s) && c.me >= 0 && s.prep[s.primary].Some?
    ensures Formed(c, r) && Forward(s, r) && Anew(s, r, env)
  {
    AfterPreparations(c, WithOwn(c, s, OwnResponse(c, s)), env)
  }

  // ---- dbft.go ----

  /** The proposal is checked, and the next view asked for when it is not accepted. */
  ghost function AfterCheck(c: Config, s: State, env: Env): (r: State)
    requires Formed(c, s)
    ensures Formed(c, r) && Forward(s, r) && Anew(s, r, env)
  {
    var s' := if s.current.nextConsensus == env.nextConsensus then s.(blockSent := true) else s;
    if Accepts(c, s, env) then s' else AfterRefusal(c, s', env)
  }

  /** A complete proposal is checked, and prepared when it is accepted. */
  ghost function AfterFilling(c: Config, s: State, env: Env): (r: State)
    requires Formed(c, s) && s.prep[s.primary].Some?
    ensures Formed(c, r) && Forward(s, r) && Anew(s, r, env)
  {
    if !Full(s) then s
    else if Accepts(c, s, env) && c.me >= 0 then AfterAnswer(c, AfterCheck(c, s, env), env)
    else AfterCheck(c, s, env)
  }

  /** The request is stored, the responses to another one dropped, and its transactions taken from the pool. */
  ghost function WithRequest(s: State, msg: Payload, env: Env): State
    requires msg.body.PrepareRequest? && s.primary < |s.prep|
  {
    Refilled(s.(current := msg.body.req), env).(prep := Purged(s.prep, IdOf(msg))[s.primary := Some(msg)])
  }

  lemma {:induction false} RequestStored(s: State, s': State, msg: Payload, env: Env)
    requires msg.body.PrepareRequest? && s.primary < |s.prep|
    requires var stored := Refilled(s.(current := msg.body.req), env).(prep := Purged(s.prep, IdOf(msg))[s.primary := Some(msg)]);
      s' == stored.(header := s'.header, earlyPrep := s'.earlyPrep, earlyCommits := s'.earlyCommits)
    ensures Bare(s') == WithRequest(Bare(s), msg, env)
  {
  }

  ghost function AfterRequest(c: Config, s: State, msg: Payload, env: Env): (r: State)
    requires Formed(c, s) && msg.body.PrepareRequest?
    ensures Formed(c, r) && Forward(s, r) && Anew(s, r, env)
  {
    if s.prep[s.primary].Some? || msg.view != s.view || msg.index != s.primary then s
    else if !env.verifiesRequest(msg) then AfterRefusal(c, s, env)
    else AfterFilling(c, WithRequest(s, msg, env), env)
  }

  /** The first request of the primary of this view, with which it is stored unless it is refused. */
  ghost predicate Fits(s: State, msg: Payload)
    requires s.primary < |s.prep|
  {
    s.prep[s.primary].None? && msg.view == s.view && msg.index == s.primary
  }

  /** All transactions of the proposal are at hand, and the callbacks accept it. */
  ghost predicate Answerable(c: Config, s: State, msg: Payload, env: Env)
    requires msg.body.PrepareRequest?
  {
    var req := msg.body.req;
    && |req.txHashes| == |s.transactions + set h | h in req.txHashes && h in env.known|
    && req.nextConsensus == env.nextConsensus && env.acceptsBlock(Header(s.height, c.prevHash(s.height), s.primary, req))
  }

  /**
   A request is answered, with one preparation, if and only if it fits, verifies, is complete and accepted,
   and this node is a validator; only then can the node sign, and only this request. One that fits and
   verifies is stored, unless the node leaves the view or the height at once.
   */
  lemma {:induction false} RequestExactly(c: Config, s: State, msg: Payload, env: Env)
    requires StateOk(c, s) && msg.body.PrepareRequest? && msg.height == s.height && OwnOk(msg, c.me, s.log)
    ensures var s', vote := AfterRequest(c, s, msg, env), Vote(s.height, s.view, c.me, IdOf(msg));
      var answers := Fits(s, msg) && env.verifiesRequest(msg) && Answerable(c, s, msg, env) && c.me >= 0;
      && (!Fits(s, msg) ==> s' == s)
      && s'.log.sent == s.log.sent + (if answers then {vote} else {})
      && (!answers ==> s'.log.signed == s.log.signed && s'.log.decided == s.log.decided)
      && (forall e :: e in s'.log.signed && e !in s.log.signed ==> e.id == IdOf(msg) && |e.backers| >= M(c.n))
      && (Fits(s, msg) && env.verifiesRequest(msg) && s'.view == s.view && s'.log.decided == s.log.decided ==>
          s'.prep[s'.primary] == Some(msg))
  {
    PrimaryFacts(c, s);
    if Fits(s, msg) && env.verifiesRequest(msg) {
      RequestFacts(c, s, msg);
      var held := WithRequest(s, msg, env);
      assert held.prep[held.primary] == Some(msg);
      FillingExactly(c, held, env);
    }
  }

  /** A complete and accepted proposal is prepared by a validator, and then signed as soon as the preparations allow it. */
  lemma {:induction false} FillingExactly(c: Config, s: State, env: Env)
    requires Formed(c, s) && s.prep[s.primary].Some?
    ensures var s', id := AfterFilling(c, s, env), IdOf(s.prep[s.primary].value);
      var answers := Full(s) && Accepts(c, s, env) && c.me >= 0;
      && s'.log.sent == s.log.sent + (if answers then {Vote(s.height, s.view, c.me, id)} else {})
      && (!answers ==> s'.log.signed == s.log.signed && s'.log.decided == s.log.decided)
      && (forall e :: e in s'.log.signed && e !in s.log.signed ==> |e.backers| >= M(c.n))
      && (c.me != s.primary ==> forall e :: e in s'.log.signed && e !in s.log.signed ==> e.id == id)
      && (c.me != s.primary && s'.view == s.view && s'.log.decided == s.log.decided ==> s'.prep[s'.primary] == s.prep[s.primary])
  {
    if Full(s) && Accepts(c, s, env) && c.me >= 0 {
      var own := OwnResponse(c, s);
      assert Votes(own) == {Vote(s.height, s.view, c.me, IdOf(own))};
    }
  }

  /** A response is kept when the slot is free and it fits the request, if that is there. */
  ghost predicate KeepsResponse(c: Config, s: State, msg: Payload)
    requires Formed(c, s) && 0 <= msg.index < c.n && msg.body.PrepareResponse?
  {
    && msg.view == s.view && msg.index != s.primary && s.prep[msg.index].None?
    && !(ViewChanging(c, s) && !MoreThanF(c, s))
    && (s.prep[s.primary].Some? ==> IdOf(s.prep[s.primary].value) == msg.body.prepHash)
  }

  /** A response is stored if and only if it is kept, and only then can the node sign or decide. */
  lemma {:induction false} ResponseExactly(c: Config, s: State, msg: Payload, env: Env)
    requires Formed(c, s) && 0 <= msg.index < c.n && msg.body.PrepareResponse?
    ensures var s', prep' := AfterResponse(c, s, msg, env), s.prep[msg.index := Some(msg)];
      var signs := KeepsResponse(c, s, msg) && c.me >= 0 && !Committed(c, s) && CanSign(c, s.(prep := prep'));
      && (!KeepsResponse(c, s, msg) ==> s' == s)
      && (KeepsResponse(c, s, msg) && s'.log.decided == s.log.decided ==> s'.prep == prep')
      && s'.log.sent == s.log.sent
      && s'.log.signed == s.log.signed + (if signs then {SignatureOf(s.(prep := prep'), c.prevHash)} else {})
      && (!signs ==> s'.log.decided == s.log.decided)
  {
  }

  ghost function AfterResponse(c: Config, s: State, msg: Payload, env: Env): (r: State)
    requires Formed(c, s) && 0 <= msg.index < c.n && msg.body.PrepareResponse?
    ensures Formed(c, r) && Forward(s, r) && Anew(s, r, env)
  {
    if !KeepsResponse(c, s, msg) then s
    else
      var s' := s.(prep := s.prep[msg.index := Some(msg)]);
      if c.me >= 0 && !Committed(c, s) && s.prep[s.primary].Some? then AfterPreparations(c, s', env) else s'
  }

  /** The validator does not ask for less than before. */
  predicate Fresher(s: State, msg: Payload)
    requires msg.body.ChangeView? && 0 <= msg.index < |s.changeViews|
  {
    var m := s.changeViews[msg.index];
    m.Some? && m.value.body.ChangeView? ==> msg.body.newView >= m.value.body.newView
  }

  ghost function AfterChangeView(c: Config, s: State, msg: Payload): (r: State)
    requires Formed(c, s) && 0 <= msg.index < c.n && msg.body.ChangeView?
    ensures Formed(c, r) && Forward(s, r)
  {
    if msg.body.newView <= s.view then AfterCallForRecovery(c, s, msg)
    else if Committed(c, s) then Recovering(c, s)
    else if !Fresher(s, msg) then s
    else AfterAsking(c, s.(changeViews := s.changeViews[msg.index := Some(msg)]), msg.body.newView)
  }

  /** A commit of this view is checked against the header when there is one; any other is stored as it is. */
  ghost predicate KeepsCommit(c: Config, s: State, msg: Payload)
    requires s.primary < |s.prep| && msg.body.Commit?
  {
    msg.view != s.view || s.prep[s.primary].None? || Verifies(msg, s.Block(c.prevHash))
  }

  ghost function AfterCommit(c: Config, s: State, msg: Payload, env: Env): (r: State)
    requires Formed(c, s) && 0 <= msg.index < c.n && msg.body.Commit?
    ensures Formed(c, r) && Forward(s, r) && Anew(s, r, env)
  {
    if !KeepsCommit(c, s, msg) then s
    else
      var s' := s.(commits := s.commits[msg.index := Some(msg)]);
      if msg.view == s.view && s.prep[s.primary].Some? then AfterCommits(c, s', env) else s'
  }

  /** The place of the first `tx`. */
  function IndexOf(txs: seq<Tx>, tx: Tx): (i: nat)
    ensures i <= |txs| && tx !in txs[..i] && (i < |txs| ==> txs[i] == tx)
  {
    if txs == [] || txs[0] == tx then 0 else
      var i := IndexOf(txs[1..], tx);
      assert txs[..i + 1] == [txs[0]] + txs[1..][..i];
      i + 1
  }

  lemma {:induction false} FirstIndex(txs: seq<Tx>, tx: Tx, i: nat)
    requires i < |txs| && txs[i] == tx && tx !in txs[..i]
    ensures IndexOf(txs, tx) == i
  {
    if i > 0 {
      assert txs[0] in txs[..i];
      assert txs[1..][..i - 1] == txs[..i][1..];
      FirstIndex(txs[1..], tx, i - 1);
    }
  }

  /** The last one takes the place of `tx`. */
  function Struck(txs: seq<Tx>, tx: Tx): seq<Tx> {
    var i := IndexOf(txs, tx);
    if i == |txs| then txs else txs[i := txs[|txs| - 1]][..|txs| - 1]
  }

  /** A transaction is of use to a backup that has the request and has not answered it. */
  ghost predicate Waits(c: Config, s: State)
    requires Formed(c, s)
    ensures Waits(c, s) ==> 0 <= c.me != s.primary && s.prep[s.primary].Some? && s.prep[c.me].None?
  {
    && 0 <= c.me != s.primary && !(ViewChanging(c, s) && !MoreThanF(c, s))
    && s.prep[s.primary].Some? && s.prep[c.me].None? && !s.blockSent
  }

  /** It was found missing. */
  ghost predicate Awaits(c: Config, s: State, tx: Tx)
    requires Formed(c, s)
  {
    Waits(c, s) && tx in s.missing
  }

  ghost function AfterTransaction(c: Config, s: State, tx: Tx, env: Env): (r: State)
    requires Formed(c, s)
    ensures Formed(c, r) && Forward(s, r) && Anew(s, r, env)
  {
    if !Awaits(c, s, tx) then s
    else
      var s' := AfterFilling(c, s.(transactions := s.transactions + {tx}), env);
      s'.(missing := Struck(s'.missing, tx))
  }

  lemma NotAwaited(c: Config, s: State, tx: Tx, env: Env)
    requires Formed(c, s) && !Awaits(c, s, tx)
    ensures AfterTransaction(c, s, tx, env) == s
  {
  }

  /** Handing a transaction over makes a node that has signed leave its view: the lock does not hold. */
  ghost predicate LosesLock(c: Config, s: State, tx: Tx, env: Env)
    requires Formed(c, s)
  {
    && Awaits(c, s, tx) && |s.current.txHashes| == |s.transactions + {tx}|
    && Committed(c, s) && !Accepts(c, s, env) && Moves(c, s)
  }

  /**
   A transaction makes a node relapse exactly when the lock is lost, or when it completes a block that
   does not get into the chain. The last one of an accepted proposal makes the node prepare it.
   */
  lemma {:induction false} TransactionExactly(c: Config, s: State, tx: Tx, env: Env)
    requires Formed(c, s)
    ensures var s' := AfterTransaction(c, s, tx, env);
      && (Relapses(c, s, s') <==> LosesLock(c, s, tx, env) || (s'.height == s.height && c.me >= 0 && |s'.log.decided| > |s.log.decided|))
      && (LosesLock(c, s, tx, env) ==> s'.height == s.height && s'.view == s.view + 1 && s'.commits == NoPayloads(c.n))
      && (Awaits(c, s, tx) && |s.current.txHashes| == |s.transactions + {tx}| && Accepts(c, s, env) ==>
          Vote(s.height, s.view, c.me, IdOf(s.prep[s.primary].value)) in s'.log.sent)
  {
    hide Refilled, Lost, Filled;
    if Awaits(c, s, tx) && |s.current.txHashes| == |s.transactions + {tx}| {
      var s1 := s.(transactions := s.transactions + {tx});
      assert Moves(c, s1.(blockSent := true)) == Moves(c, s1) == Moves(c, s);
      var own := OwnResponse(c, s);
      assert Vote(s.height, s.view, c.me, IdOf(own)) in Votes(own);
    }
  }

  ghost function AfterTimeout(c: Config, s: State, env: Env, h: nat, v: nat): (r: State)
    requires Formed(c, s)
    ensures Formed(c, r) && Forward(s, r) && Anew(s, r, env)
  {
    if c.me < 0 || h != s.height || v != s.view then s
    else if c.me == s.primary && s.prep[s.primary].None? then AfterProposal(c, s, env)
    else if Committed(c, s) then Recovering(c, s)
    else AfterRefusal(c, s, env)
  }

  ghost function AfterStart(c: Config, s: State, env: Env): (r: State)
    requires Formed(c, s)
    ensures Grows(s.log, r.log) && r.log.heard == s.log.heard && r.log.commits == s.log.commits
  {
    var s' := Renewed(c, s, env.chain + 1, 0);
    if c.me == s'.primary then AfterProposal(c, s', env) else s'
  }

  /** Messages of other heights and of unknown validators are dropped, and later views are put aside. */
  predicate Handles(c: Config, s: State, msg: Payload) {
    0 <= msg.index < c.n && msg.height == s.height && (msg.view == NextView(s.view) ==> msg.body.Recovery?)
  }

  /** The state in which a message is handled: it is on record, and so is its sender. */
  function Met(s: State, msg: Payload): State
    requires 0 <= msg.index < |s.lastSeen|
  {
    s.(log := Told(s.log, msg), lastSeen := Noted(s.lastSeen, msg), met := s.met + {ContactOf(msg)})
  }

  /** After a message; recovery messages are replayed part by part. */
  ghost function AfterMessage(c: Config, s: State, msg: Payload, env: Env): State
    requires Formed(c, s) && !msg.body.Recovery?
  {
    var told := s.(log := Told(s.log, msg));
    if !Handles(c, s, msg) then told
    else AfterBody(c, Met(s, msg), msg, env)
  }

  ghost function AfterBody(c: Config, s: State, msg: Payload, env: Env): (r: State)
    requires Formed(c, s) && 0 <= msg.index < c.n && !msg.body.Recovery?
    ensures Formed(c, r) && Forward(s, r) && Anew(s, r, env)
  {
    match msg.body
    case ChangeView(_) => AfterChangeView(c, s, msg)
    case PrepareRequest(_) => AfterRequest(c, s, msg, env)
    case PrepareResponse(_) => AfterResponse(c, s, msg, env)
    case Commit(_) => AfterCommit(c, s, msg, env)
    case RecoveryRequest => AfterCallForRecovery(c, s, msg)
  }

  /**
   A step after which the node may have forgotten what it said: it started its height anew, as the chain
   did not take its block, or it left a view in which it had signed.
   */
  ghost predicate Relapses(c: Config, s: State, s': State)
    requires c.me < |s.commits|
  {
    && c.me >= 0 && s'.height == s.height
    && (|s'.log.decided| > |s.log.decided| || (s'.view > s.view && Committed(c, s)))
  }

  // ---- any message ----

  /** Where an event leaves a node; one that has relapsed in it is not followed further. */
  datatype Left = Left(now: State, relapsed: bool)

  ghost function LeftAfter(c: Config, s: State, s': State): (r: Left)
    requires Formed(c, s)
    ensures r == Left(s', Relapses(c, s, s'))
  {
    Left(s', Relapses(c, s, s'))
  }

  ghost function AfterReceiving(c: Config, s: State, msg: Payload, env: Env): (r: Left)
    requires Formed(c, s)
    ensures Formed(c, r.now) && Grows(s.log, r.now.log) && s.met <= r.now.met
    ensures Handles(c, s, msg) ==> ContactOf(msg) in r.now.met
    ensures !msg.body.Recovery? ==> r.now.met <= s.met + {ContactOf(msg)}
    decreases msg, 3
  {
    if msg.body.Recovery? && Handles(c, s, msg) then
      AfterRecovery(c, Met(s, msg), msg, env)
    else if msg.body.Recovery? then Left(s.(log := Told(s.log, msg)), false)
    else LeftAfter(c, s, AfterMessage(c, s, msg, env))
  }

  /**
   After a recovery message: first its change views when it is of a later view, but nothing at all after the
   own commit, then, in the view that this leaves the node in, its preparations and its commits.
   */
  ghost function AfterRecovery(c: Config, s: State, msg: Payload, env: Env): (r: Left)
    requires Formed(c, s) && msg.body.Recovery?
    ensures Formed(c, r.now) && Grows(s.log, r.now.log) && s.met <= r.now.met
    decreases msg, 2
  {
    if msg.view <= s.view then AfterParts(c, s, msg, env)
    else if Committed(c, s) then Left(s, false)
    else
      var r := AfterReplay(c, s, msg.body.changeViews, msg, env);
      if r.relapsed then r else AfterParts(c, r.now, msg, env)
  }

  /** Preparations help in their own view, unless the node is about to leave it or has signed. */
  ghost predicate Recovers(c: Config, s: State, msg: Payload)
    requires Formed(c, s)
  {
    msg.view == s.view && !(ViewChanging(c, s) && !MoreThanF(c, s)) && !Committed(c, s)
  }

  ghost function AfterParts(c: Config, s: State, msg: Payload, env: Env): (r: Left)
    requires Formed(c, s) && msg.body.Recovery?
    ensures Formed(c, r.now) && Grows(s.log, r.now.log) && s.met <= r.now.met
    decreases msg, 1, 1
  {
    var r := if Recovers(c, s, msg) then AfterPreparing(c, s, msg, env) else Left(s, false);
    if r.relapsed || msg.view > r.now.view then r else AfterReplay(c, r.now, msg.body.commits, msg, env)
  }

  /** The request when it is missing, which a primary without one makes itself, and then the responses. */
  ghost function AfterPreparing(c: Config, s: State, msg: Payload, env: Env): (r: Left)
    requires Formed(c, s) && msg.body.Recovery?
    ensures Formed(c, r.now) && Grows(s.log, r.now.log) && s.met <= r.now.met
    decreases msg, 1, 0
  {
    var request := msg.body.request;
    var r :=
      if s.prep[s.primary].Some? then Left(s, false)
      else if request.Some? then AfterReplay(c, s, [request.value], msg, env)
      else if c.me == s.primary then LeftAfter(c, s, AfterProposal(c, s, env))
      else Left(s, false);
    if r.relapsed then r else AfterReplay(c, r.now, msg.body.responses, msg, env)
  }

  /** Parts of a recovery message are handled one by one, as if received. */
  ghost function AfterReplay(c: Config, s: State, ps: seq<Payload>, msg: Payload, env: Env): (r: Left)
    requires Formed(c, s) && forall p :: p in ps ==> IsPart(p, msg)
    ensures Formed(c, r.now) && Grows(s.log, r.now.log) && s.met <= r.now.met
    decreases msg, 0, |ps|
  {
    if ps == [] then Left(s, false)
    else
      assert IsPart(ps[0], msg);
      var r := AfterReceiving(c, s, ps[0], env);
      if r.relapsed then r else AfterReplay(c, r.now, ps[1..], msg, env)
  }

  /**
   Messages of other heights or of unknown validators are dropped, and those of the next view unless they are
   for recovery; all others are handled. A validator whose message was handled does not count as lost as long as the node stays in a view that is
   not after that message; the records of the other validators stay, unless parts of the message are theirs.
   */
  ghost predicate Heard(c: Config, s: State, s': State, msg: Payload, relapsed: bool)
    requires c.n >= 0
  {
    && var handled := 0 <= msg.index < c.n && msg.height == s.height && (msg.view == (s.view + 1) % 256 ==> msg.body.Recovery?);
    && (handled ==> ContactOf(msg) in s'.met)
    && (!handled ==> Bare(s') == Bare(s).(log := s'.log) && !relapsed)
    && (handled && !relapsed && s'.height == msg.height && s'.view <= msg.view && msg.index != c.me ==>
        msg.index !in Lost(s'.lastSeen, s'.height, s'.view))
    && (!msg.body.Recovery? && !relapsed && |s.lastSeen| == |s'.lastSeen| == c.n ==>
        forall k :: 0 <= k < c.n && k != c.me && k != msg.index ==> s'.lastSeen[k] == s.lastSeen[k])
  }

  lemma {:induction false} HeardIs(c: Config, s: State, s': State, msg: Payload, env: Env, relapsed: bool)
    requires StateOk(c, s) && Formed(c, Bare(s)) && (relapsed || StateOk(c, s'))
    requires Left(Bare(s'), relapsed) == AfterReceiving(c, Bare(s), msg, env)
    ensures Heard(c, s, s', msg, relapsed)
  {
    if !relapsed {
      if Handles(c, s, msg) && s'.height == msg.height && s'.view <= msg.view && msg.index != c.me {
        assert ContactOf(msg) in s'.met;
        LostIsUnheard(c, s', msg.index);
      }
      if !msg.body.Recovery? {
        forall k | 0 <= k < c.n && k != c.me && k != msg.index ensures s'.lastSeen[k] == s.lastSeen[k] {
          RecordOfOwn(c, s, s', k);
        }
      }
    }
  }

  lemma {:induction false} ReplayStep(c: Config, s: State, ps: seq<Payload>, i: nat, msg: Payload, env: Env)
    requires Formed(c, s) && i < |ps| && forall p :: p in ps ==> IsPart(p, msg)
    ensures var r := AfterReceiving(c, s, ps[i], env);
      AfterReplay(c, s, ps[i..], msg, env) == if r.relapsed then r else AfterReplay(c, r.now, ps[i + 1..], msg, env)
  {
    assert ps[i..][0] == ps[i] && ps[i..][1..] == ps[i + 1..];
  }

  lemma {:induction false} ReplayEnds(c: Config, s: State, ps: seq<Payload>, msg: Payload, env: Env)
    requires Formed(c, s) && forall p :: p in ps ==> IsPart(p, msg)
    ensures AfterReplay(c, s, [], msg, env) == Left(s, false)
    ensures ps[0..] == ps && ps[|ps|..] == []
  {
  }
}
