/**
 Where the protocol as it is coded does less than it promises: runs of one node, from its start, that end
 in each of these states. The exact conditions are lemmas of DbftState and DbftSteps.
 */
module DbftLimits {
  import opened Wrappers
  import opened DbftTypes
  import opened DbftState
  import opened DbftSteps
  import opened Dbft

  /** What is stored for validators 0 to 3. */
  function Four<T>(a: Option<T>, b: Option<T>, c: Option<T>, d: Option<T>): (s: seq<Option<T>>)
    ensures |s| == 4 && s[0] == a && s[1] == b && s[2] == c && s[3] == d
  {
    [a, b, c, d]
  }

  ghost predicate FourNodes(c: Config, me: nat) {
    && ConfigOk(c) && c.n == 4 && c.me == me
    && forall h: nat, v: nat :: c.primaryOf(h, v) == GetPrimaryIndex(4, h, v)
  }

  /** Surroundings with an empty pool for proposals. */
  function Around(known: set<Tx>, chain: nat, accepts: bool): Env {
    Env(0, 1, 0, [], known, 3, chain, msg => true, header => accepts, header => true)
  }

  /** Still in the first view of height 8, without a decision. */
  ghost predicate Calm(c: Config, s: State)
    ensures Calm(c, s) ==> Formed(c, s)
  {
    Formed(c, s) && s.height == 8 && s.view == 0 && s.log.decided == []
  }

  /** The start of height 8. */
  function Started(me: nat): State
    requires me < 4
  {
    var no, seen := Four(None, None, None, None), Four(None, None, None, None)[me := Some(Seen(8, 0))];
    State(8, 0, 0, Request(0, 0, 0, []), {}, [], false, no, no, no, no, seen, None, [], [], [], {}, EmptyLog)
  }

  lemma StartedIs(c: Config, s: State, me: nat, env: Env)
    requires me < 4 && FourNodes(c, me) && me != 0 && env.chain == 7 && Formed(c, s)
    requires s.lastSeen == seq(4, i => None) && s.current == Request(0, 0, 0, []) && s.met == {} && s.log == EmptyLog && s.out == [] && Bare(s) == s
    ensures AfterStart(c, s, env) == Started(me) && Calm(c, Started(me))
  {
    assert NoPayloads(4) == Four(None, None, None, None);
    assert s.lastSeen == Four(None, None, None, None);
  }

  /** A validator other than the first primary starts after block 7. */
  method Start(me: nat, prevHash: nat -> nat) returns (node: DBFT)
    requires 0 < me < 4
    ensures fresh(node) && node.Valid() && FourNodes(node.c, me) && node.c.me == me && node.c.prevHash == prevHash
    ensures node.Brief() == Started(me) && Calm(node.c, node.Brief())
  {
    var env := Around({}, 7, true);
    node := new DBFT(4, me, prevHash);
    StartedIs(node.c, node.Brief(), me, env);
    hide Started, AfterStart;
    node.Start(env);
  }

  /** The node handles a message of another validator, and neither decides nor leaves its view. */
  method Hand(node: DBFT, msg: Payload, env: Env, ghost s: State, ghost s': State)
    requires node.Valid() && node.Brief() == s && Calm(node.c, s) && Calm(node.c, s')
    requires msg.index != node.c.me && !msg.body.Recovery? && AfterMessage(node.c, s, msg, env) == s'
    modifies node
    ensures node.Valid() && node.Brief() == s'
  {
    hide AfterMessage;
    assert OwnOk(msg, node.c.me, node.log);
    node.OnReceive(msg, env);
  }

  method Fire(node: DBFT, env: Env, ghost s: State, ghost s': State)
    requires node.Valid() && node.Brief() == s && Calm(node.c, s) && Calm(node.c, s') && AfterTimeout(node.c, s, env, 8, 0) == s'
    modifies node
    ensures node.Valid() && node.Brief() == s'
  {
    hide AfterTimeout;
    node.OnTimeout(env, 8, 0);
  }

  // ---- the commit lock can be lost ----

  const REQ: Request := Request(1, 2, 3, [5])
  const ID: PrepId := PrepId(8, 0, 0, REQ)

  function Asks(k: nat): (p: Payload)
    ensures p.index == k && p.body.ChangeView?
  {
    Payload(8, 0, k, ChangeView(1))
  }

  function Answers(k: nat): (p: Payload)
    ensures p.index == k && p.body.PrepareResponse?
  {
    Payload(8, 0, k, PrepareResponse(ID))
  }

  /**
   Validator 1 has the request, whose transaction 5 was missing; it was found in the pool when recovery was
   asked for, which neither checks the block nor clears the list of missing transactions.
   */
  function Waiting(known: set<Tx>): State {
    var request := Payload(8, 0, 0, PrepareRequest(REQ));
    var s := Started(1);
    s.(current := REQ, transactions := known, missing := [5], out := if known == {} then [] else [Payload(8, 0, 1, RecoveryRequest)],
       prep := Four(Some(request), None, None, None),
       lastSeen := Four(Some(Seen(8, 0)), Some(Seen(8, 0)), None, None), met := {Contact(0, 8, 0)}, log := s.log.(heard := {Vote(8, 0, 0, ID)}))
  }

  lemma WaitingStored(c: Config)
    requires FourNodes(c, 1)
    ensures Formed(c, Waiting({})) && Calm(c, Waiting({})) && Calm(c, Waiting({5}))
    ensures var msg := Payload(8, 0, 0, PrepareRequest(REQ));
      WithRequest(Met(Started(1), msg), msg, Around({}, 7, false)) == Waiting({})
  {
    var s, msg := Started(1), Payload(8, 0, 0, PrepareRequest(REQ));
    var w := WithRequest(Met(s, msg), msg, Around({}, 7, false));
    assert Without([5], {}) == [5] by { assert [5][..0] == []; }
    assert Purged(s.prep, IdOf(msg)) == s.prep;
    assert w.prep == Waiting({}).prep && w.lastSeen == Waiting({}).lastSeen && w.met == {Contact(0, 8, 0)};
    assert w.log == Waiting({}).log && w.transactions == {} && w.missing == [5];
  }

  lemma WaitingIs(c: Config)
    requires FourNodes(c, 1)
    ensures AfterMessage(c, Started(1), Payload(8, 0, 0, PrepareRequest(REQ)), Around({}, 7, false)) == Waiting({})
    ensures Calm(c, Waiting({})) && Calm(c, Waiting({5}))
  {
    hide WithRequest;
    var s, msg, env := Started(1), Payload(8, 0, 0, PrepareRequest(REQ)), Around({}, 7, false);
    WaitingStored(c);
    assert AfterFilling(c, Waiting({}), env) == Waiting({});
    hide AfterFilling;
    assert AfterBody(c, Met(s, msg), msg, env) == AfterFilling(c, WithRequest(Met(s, msg), msg, env), env);
  }

  lemma FoundIs(c: Config)
    requires FourNodes(c, 1) && Formed(c, Waiting({}))
    ensures AfterTimeout(c, Waiting({}), Around({5}, 7, false), 8, 0) == Waiting({5})
  {
    assert Without([5], {5}) == [] by { assert [5][..0] == []; }
    assert Lost(Waiting({}).lastSeen, 8, 0) == {2, 3};
  }

  /** Validators 0 and 2 ask for the next view; 2 and then 3 prepare. */
  function Prepared2(): State {
    var s := Waiting({5});
    s.(changeViews := Four(Some(Asks(0)), None, Some(Asks(2)), None), prep := s.prep[2 := Some(Answers(2))],
       lastSeen := s.lastSeen[2 := Some(Seen(8, 0))], met := {Contact(0, 8, 0), Contact(2, 8, 0)},
       log := s.log.(heard := {Vote(8, 0, 0, ID), Vote(8, 0, 2, ID)}))
  }

  /** Validator 2 and then 0 ask for the next view. */
  function Asked2(both: bool): State {
    var s := Waiting({5});
    s.(changeViews := Four(if both then Some(Asks(0)) else None, None, Some(Asks(2)), None),
       lastSeen := s.lastSeen[2 := Some(Seen(8, 0))], met := {Contact(0, 8, 0), Contact(2, 8, 0)})
  }

  lemma Asked2Is(c: Config)
    requires FourNodes(c, 1)
    ensures AfterMessage(c, Waiting({5}), Asks(2), Around({5}, 7, false)) == Asked2(false) && Calm(c, Asked2(false))
  {
    var s := Asked2(false);
    assert Waiting({5}).changeViews[2 := Some(Asks(2))] == s.changeViews && Asking(s.changeViews, 1) == {2};
  }

  lemma AskedBothIs(c: Config)
    requires FourNodes(c, 1)
    ensures AfterMessage(c, Asked2(false), Asks(0), Around({5}, 7, false)) == Asked2(true) && Calm(c, Asked2(true))
  {
    var s := Asked2(true);
    assert Asked2(false).changeViews[0 := Some(Asks(0))] == s.changeViews && Asking(s.changeViews, 1) == {0, 2};
  }

  lemma Prepared2Is(c: Config)
    requires FourNodes(c, 1)
    ensures AfterMessage(c, Asked2(true), Answers(2), Around({5}, 7, false)) == Prepared2() && Calm(c, Prepared2())
  {
    assert Filled(Asked2(true).prep[2 := Some(Answers(2))]) == {0, 2};
  }

  /** Validator 1 has signed on the preparations of 0, 2 and 3 without having prepared itself. */
  ghost function Signed3(c: Config): State
    requires FourNodes(c, 1)
  {
    var s := Prepared2();
    var s' := s.(prep := s.prep[3 := Some(Answers(3))], lastSeen := s.lastSeen[3 := Some(Seen(8, 0))],
      met := s.met + {Contact(3, 8, 0)}, log := Told(s.log, Answers(3)));
    s'.(commits := s'.commits[1 := Some(OwnCommit(c, s'))], out := s'.out + [OwnCommit(c, s')], log := s'.log.(signed := {SignatureOf(s', c.prevHash)}))
  }

  lemma Signed3Is(c: Config)
    requires FourNodes(c, 1)
    ensures AfterMessage(c, Prepared2(), Answers(3), Around({5}, 7, false)) == Signed3(c) && Calm(c, Signed3(c))
  {
    var s, s' := Prepared2(), Signed3(c);
    assert Filled(s.prep[3 := Some(Answers(3))]) == {0, 2, 3};
    assert InView(s'.commits, 0) == {1};
    assert s'.log.signed == {} + s'.log.signed;
  }

  lemma Signed3Loses(c: Config)
    requires FourNodes(c, 1)
    ensures LosesLock(c, Signed3(c), 5, Around({5}, 7, false))
  {
    var s' := Signed3(c);
    assert Filled(s'.commits) == {1} && Lost(s'.lastSeen, 8, 0) == {};
    assert Asking(Asked(c, s'), 1) == {0, 1, 2};
    assert {5} + {5} == {5 as Tx};
  }

  /**
   A validator that has signed forgets its commit and enters the next view when a transaction comes late:
   it had signed without checking the block, and now the block is rejected.
   */
  method LockCanBeLost(prevHash: nat -> nat) returns (node: DBFT)
    ensures node.relapsed && node.height == 8 && node.view == 1 && node.commits == NoPayloads(4)
    ensures exists e :: e in node.log.signed && e.height == 8
  {
    hide *;
    var env := Around({5}, 7, false);
    node := Start(1, prevHash);
    ghost var c := node.c;
    WaitingIs(c);
    Hand(node, Payload(8, 0, 0, PrepareRequest(REQ)), Around({}, 7, false), Started(1), Waiting({}));
    FoundIs(c);
    Fire(node, env, Waiting({}), Waiting({5}));
    Asked2Is(c);
    AskedBothIs(c);
    Hand(node, Asks(2), env, Waiting({5}), Asked2(false));
    Hand(node, Asks(0), env, Asked2(false), Asked2(true));
    Prepared2Is(c);
    Hand(node, Answers(2), env, Asked2(true), Prepared2());
    Signed3Is(c);
    Hand(node, Answers(3), env, Prepared2(), Signed3(c));
    Signed3Loses(c);
    LoseLock(node, env);
  }

  method LoseLock(node: DBFT, env: Env)
    requires node.Valid() && FourNodes(node.c, 1) && node.Brief() == Signed3(node.c) && LosesLock(node.c, node.Brief(), 5, env)
    modifies node
    ensures node.relapsed && node.height == 8 && node.view == 1 && node.commits == NoPayloads(4)
    ensures exists e :: e in node.log.signed && e.height == 8
  {
    hide AfterTransaction, LosesLock;
    ghost var s := Signed3(node.c);
    TransactionExactly(node.c, s, 5, env);
    ghost var e :| e in s.log.signed && e.height == 8;
    node.OnTransaction(5, env);
    assert e in node.log.signed;
  }

  // ---- a block can be decided without a certificate ----

  const EMPTY: Request := Request(1, 2, 3, [])
  const OTHER: Request := Request(2, 2, 3, [])

  function Signs(c: Config, k: nat, req: Request): (p: Payload)
    ensures p.index == k && p.body.Commit?
  {
    Payload(8, 0, k, Commit(Signature(k, Header(8, c.prevHash(8), 0, req))))
  }

  /** The commits of 2 and 3 on another header come before any request and are stored without a check. */
  function Early(c: Config): State {
    var s, two, three := Started(1), Signs(c, 2, OTHER), Signs(c, 3, OTHER);
    s.(commits := Four(None, None, Some(two), Some(three)), log := s.log.(commits := {two, three}),
       lastSeen := Four(None, Some(Seen(8, 0)), Some(Seen(8, 0)), Some(Seen(8, 0))), met := {Contact(2, 8, 0), Contact(3, 8, 0)})
  }

  lemma EarlyIs(c: Config)
    requires FourNodes(c, 1)
    ensures var env := Around({}, 7, true);
      var s1 := AfterMessage(c, Started(1), Signs(c, 2, OTHER), env);
      Calm(c, s1) && AfterMessage(c, s1, Signs(c, 3, OTHER), env) == Early(c) && Calm(c, Early(c)) && Calm(c, Started(1))
  {
    var env, s := Around({}, 7, true), Started(1);
    var s1 := AfterMessage(c, s, Signs(c, 2, OTHER), env);
    assert s1.commits == Four(None, None, Some(Signs(c, 2, OTHER)), None);
    assert s1.lastSeen == Four(None, Some(Seen(8, 0)), Some(Seen(8, 0)), None);
  }

  /** The request of the primary is accepted and prepared. */
  function Requested(c: Config): State {
    var s, id := Early(c), PrepId(8, 0, 0, EMPTY);
    var request, response := Payload(8, 0, 0, PrepareRequest(EMPTY)), Payload(8, 0, 1, PrepareResponse(id));
    s.(current := EMPTY, blockSent := true, prep := Four(Some(request), Some(response), None, None),
       lastSeen := s.lastSeen[0 := Some(Seen(8, 0))], met := s.met + {Contact(0, 8, 0)}, out := [response],
       log := s.log.(heard := {Vote(8, 0, 0, id)}, sent := {Vote(8, 0, 1, id)}))
  }

  lemma RequestedIs(c: Config)
    requires FourNodes(c, 1)
    ensures AfterMessage(c, Early(c), Payload(8, 0, 0, PrepareRequest(EMPTY)), Around({}, 7, true)) == Requested(c) && Calm(c, Requested(c))
  {
    var s, msg, env := Early(c), Payload(8, 0, 0, PrepareRequest(EMPTY)), Around({}, 7, true);
    var s' := Met(s, msg);
    var held := s'.(current := EMPTY, prep := Four(Some(msg), None, None, None));
    assert WithRequest(s', msg, env) == held by {
      assert Purged(s.prep, IdOf(msg)) == s.prep;
      assert held.prep == s.prep[0 := Some(msg)];
    }
    AcceptedIs(c, held, env);
    hide AfterFilling;
    assert AfterBody(c, s', msg, env) == AfterFilling(c, held, env);
  }

  lemma AcceptedIs(c: Config, s: State, env: Env)
    requires FourNodes(c, 1) && Formed(c, s) && s == Requested(c).(blockSent := false, prep := s.prep, out := [], log := s.log)
    requires s.prep == Four(Some(Payload(8, 0, 0, PrepareRequest(EMPTY))), None, None, None)
    requires s.log == Requested(c).log.(sent := {}) && env == Around({}, 7, true)
    ensures AfterFilling(c, s, env) == Requested(c)
  {
    var s' := Requested(c);
    assert WithOwn(c, s.(blockSent := true), OwnResponse(c, s)) == s';
    assert Filled(s'.prep) == {0, 1};
    assert AfterPreparations(c, s', env) == s';
  }

  lemma UncertifiedIs(c: Config)
    requires FourNodes(c, 1)
    ensures var s' := AfterMessage(c, Requested(c), Signs(c, 0, EMPTY), Around({}, 7, true));
      && s'.height == 8 && s'.view == 0 && |s'.log.decided| == 1 && !Certified(s'.log.decided[0])
  {
    var s, msg, env := Requested(c), Signs(c, 0, EMPTY), Around({}, 7, true);
    var s' := s.(commits := Four(Some(msg), None, Some(Signs(c, 2, OTHER)), Some(Signs(c, 3, OTHER))),
      met := s.met + {ContactOf(msg)}, log := Told(s.log, msg));
    assert s'.commits == s.commits[0 := Some(msg)];
    MixedIs(c, s', env);
    hide AfterCommits;
    assert AfterMessage(c, s, msg, env) == AfterCommits(c, s', env);
  }

  /** Three commits of the view, of which two are for another header. */
  lemma MixedIs(c: Config, s: State, env: Env)
    requires FourNodes(c, 1) && Formed(c, s) && s.height == 8 && s.view == 0 && Full(s) && s.log.decided == [] && env.chain == 7
    requires s.primary == 0 && s.current == EMPTY
    requires s.commits == Four(Some(Signs(c, 0, EMPTY)), None, Some(Signs(c, 2, OTHER)), Some(Signs(c, 3, OTHER)))
    ensures var s' := AfterCommits(c, s, env);
      s'.height == 8 && s'.view == 0 && |s'.log.decided| == 1 && !Certified(s'.log.decided[0])
  {
    assert InView(s.commits, 0) == {0, 2, 3};
    InViewCount(s.commits, 0);
    InViewHas(s.commits, 0, 2);
    var d := DecisionNow(c, s);
    var p := Signs(c, 2, OTHER);
    assert p in d.commits && !Verifies(p, d.header);
  }

  /**
   A validator decides a block of which only one commit is a signature: the other two are for another
   header and were stored before the request. The chain does not take it, and the height starts anew.
   */
  method UncertifiedDecision(prevHash: nat -> nat) returns (node: DBFT)
    ensures node.relapsed && node.height == 8 && |node.log.decided| == 1 && !Certified(node.log.decided[0])
  {
    hide *;
    var env := Around({}, 7, true);
    node := Start(1, prevHash);
    var c := node.c;
    EarlyIs(c);
    ghost var s1 := AfterMessage(c, Started(1), Signs(c, 2, OTHER), env);
    Hand(node, Signs(c, 2, OTHER), env, Started(1), s1);
    Hand(node, Signs(c, 3, OTHER), env, s1, Early(c));
    RequestedIs(c);
    Hand(node, Payload(8, 0, 0, PrepareRequest(EMPTY)), env, Early(c), Requested(c));
    UncertifiedIs(c);
    Decide(node, Signs(node.c, 0, EMPTY), env);
  }

  method Decide(node: DBFT, msg: Payload, env: Env)
    requires node.Valid() && FourNodes(node.c, 1) && node.Brief() == Requested(node.c) && msg == Signs(node.c, 0, EMPTY)
    requires env == Around({}, 7, true)
    modifies node
    ensures node.relapsed && node.height == 8 && |node.log.decided| == 1 && !Certified(node.log.decided[0])
  {
    hide AfterMessage, Around, Certified;
    UncertifiedIs(node.c);
    assert OwnOk(msg, 1, node.log);
    node.OnReceive(msg, env);
  }

  // ---- a primary can count preparations for another request ----

  /** Validator 0 starts after block 6; block 7 of the chain makes it the primary, whose timer has not fired. */
  method StartPrimary(prevHash: nat -> nat) returns (node: DBFT)
    ensures fresh(node) && node.Valid() && FourNodes(node.c, 0) && node.c.me == 0 && node.c.prevHash == prevHash
    ensures node.Brief() == Started(0) && Calm(node.c, node.Brief())
  {
    node := new DBFT(4, 0, prevHash);
    node.Start(Around({}, 6, true));
    node.HandleChainBlock(7, Around({}, 7, true));
    assert NoPayloads(4) == Four(None, None, None, None);
    assert node.lastSeen == Started(0).lastSeen;
  }

  /** The preparation of 2 for another request is stored while there is no request. */
  function Mismatched(): State {
    var s, other := Started(0), PrepId(8, 0, 0, OTHER);
    s.(prep := Four(None, None, Some(Payload(8, 0, 2, PrepareResponse(other))), None),
       lastSeen := s.lastSeen[2 := Some(Seen(8, 0))], met := {Contact(2, 8, 0)}, log := s.log.(heard := {Vote(8, 0, 2, other)}))
  }

  /** Its own request, with a timestamp and a nonce of its own, does not drop it. */
  function Proposed8(): State {
    var s, id := Mismatched(), PrepId(8, 0, 0, Request(1, 0, 3, []));
    s.(current := id.req, prep := s.prep[0 := Some(Payload(8, 0, 0, PrepareRequest(id.req)))],
       out := [Payload(8, 0, 0, PrepareRequest(id.req))],
       log := s.log.(sent := {Vote(8, 0, 0, id)}))
  }

  lemma MismatchedIs(c: Config)
    requires FourNodes(c, 0)
    ensures AfterMessage(c, Started(0), Payload(8, 0, 2, PrepareResponse(PrepId(8, 0, 0, OTHER))), Around({}, 7, true)) == Mismatched()
    ensures Calm(c, Started(0)) && Calm(c, Mismatched())
  {
  }

  lemma Proposed8Is(c: Config)
    requires FourNodes(c, 0)
    ensures AfterTimeout(c, Mismatched(), Around({}, 7, true), 8, 0) == Proposed8() && Calm(c, Proposed8())
  {
    var s, s', env := Mismatched(), Proposed8(), Around({}, 7, true);
    assert Proposing(c, s, env) == s';
    assert Filled(s'.prep) == {0, 2};
    assert AfterPreparations(c, s', env) == s';
  }

  lemma StaleIs(c: Config)
    requires FourNodes(c, 0)
    ensures var id := PrepId(8, 0, 0, Request(1, 0, 3, []));
      var s' := AfterMessage(c, Proposed8(), Payload(8, 0, 3, PrepareResponse(id)), Around({}, 7, true));
      && Calm(c, s') && s'.log.signed == {Signed(8, 0, id, Header(8, c.prevHash(8), 0, id.req), {0, 2, 3}, {2})}
      && Vote(8, 0, 2, id) !in s'.log.heard && s'.log.sent == {Vote(8, 0, 0, id)}
  {
    var s, id, env := Proposed8(), PrepId(8, 0, 0, Request(1, 0, 3, [])), Around({}, 7, true);
    var msg := Payload(8, 0, 3, PrepareResponse(id));
    var s' := Met(s, msg).(prep := s.prep[3 := Some(msg)]);
    assert s'.log.heard == {Vote(8, 0, 2, PrepId(8, 0, 0, OTHER)), Vote(8, 0, 3, id)};
    ThirdIs(c, s', env);
    hide AfterPreparations;
    assert AfterMessage(c, s, msg, env) == AfterPreparations(c, s', env);
  }

  lemma ThirdIs(c: Config, s: State, env: Env)
    requires FourNodes(c, 0) && Calm(c, s) && Full(s) && s.primary == 0 && s.commits == Four(None, None, None, None)
    requires var id := PrepId(8, 0, 0, s.current); s.prep == Four(Some(Payload(8, 0, 0, PrepareRequest(s.current))), None,
      Some(Payload(8, 0, 2, PrepareResponse(PrepId(8, 0, 0, OTHER)))), Some(Payload(8, 0, 3, PrepareResponse(id))))
    requires s.log.signed == {} && s.current != OTHER
    ensures var id, s' := PrepId(8, 0, 0, s.current), AfterPreparations(c, s, env);
      && Calm(c, s') && s'.log == s.log.(signed := {Signed(8, 0, id, s.Block(c.prevHash), {0, 2, 3}, {2})})
  {
    assert Filled(s.prep) == {0, 2, 3} && Stale(s.prep, PrepId(8, 0, 0, s.current)) == {2};
    var s' := Signing(c, s);
    assert InView(s'.commits, 0) == {0};
    assert s'.log.signed == {SignatureOf(s, c.prevHash)};
  }

  /** A primary signs on three preparations of which one is for another request. */
  method StaleSignature(prevHash: nat -> nat) returns (node: DBFT)
    ensures node.Valid() && node.c.me == 0 && SignedOnStale(node.log)
  {
    hide *;
    var env := Around({}, 7, true);
    node := StartPrimary(prevHash);
    ghost var c := node.c;
    MismatchedIs(c);
    Proposed8Is(c);
    Hand(node, Payload(8, 0, 2, PrepareResponse(PrepId(8, 0, 0, OTHER))), env, Started(0), Mismatched());
    Fire(node, env, Mismatched(), Proposed8());
    CountStale(node, env);
  }

  /** A signature counts validator 2, which was not heard to prepare the request. */
  ghost predicate SignedOnStale(log: Log) {
    exists e :: e in log.signed && 2 in e.backers && |e.backers| == 3 && Vote(e.height, e.view, 2, e.id) !in log.heard + log.sent
  }

  method CountStale(node: DBFT, env: Env)
    requires node.Valid() && FourNodes(node.c, 0) && node.Brief() == Proposed8() && Calm(node.c, Proposed8())
    requires env == Around({}, 7, true)
    modifies node
    ensures node.Valid() && SignedOnStale(node.log)
  {
    hide AfterMessage, Around;
    var id := PrepId(8, 0, 0, Request(1, 0, 3, []));
    StaleIs(node.c);
    ghost var s' := AfterMessage(node.c, Proposed8(), Payload(8, 0, 3, PrepareResponse(id)), env);
    Hand(node, Payload(8, 0, 3, PrepareResponse(id)), env, Proposed8(), s');
    ghost var e := Signed(8, 0, id, Header(8, node.c.prevHash(8), 0, id.req), {0, 2, 3}, {2});
    assert e in s'.log.signed && node.log == s'.log;
  }
}
