/**
 Safety of dBFT over whole runs. A world is the list of what every validator prepared, signed, was told and
 decided. In each step one node handles an event; what an honest node is told in the name of another one is
 something that this one sent. Byzantine nodes may send and do anything. That the handlers take such steps
 only is shown in module DbftNetwork.
 */
module DbftSafety {
  import opened Wrappers
  import opened DbftTypes
  import opened DbftState

  /** The validators, those that follow the protocol, and the chain they extend. */
  datatype Net = Net(n: nat, honest: set<nat>, prevHash: nat -> nat, primaryOf: (nat, nat) -> nat)

  /** The indices below `n`. */
  function All(n: nat): (s: set<nat>)
    ensures forall k: nat :: k in s <==> k < n
    ensures |s| == n
  {
    if n == 0 then {} else All(n - 1) + {n - 1}
  }

  ghost predicate NetOk(net: Net) {
    && net.n > 0 && net.honest <= All(net.n)
    && forall h: nat, v: nat :: net.primaryOf(h, v) < net.n
  }

  /** At most F validators are faulty. */
  predicate FewFaulty(net: Net)
    requires net.n > 0
  {
    |All(net.n) - net.honest| <= F(net.n)
  }

  function ConfigOf(net: Net, i: nat): Config {
    Config(net.n, i, net.prevHash, net.primaryOf)
  }

  type World = seq<Log>

  ghost predicate Initial(net: Net, w: World) {
    |w| == net.n && forall i :: 0 <= i < net.n ==> w[i] == EmptyLog
  }

  /** What is told in the name of an honest node was sent by it: ideal signatures. */
  ghost predicate Authentic(net: Net, w: World, votes: set<Vote>, commits: set<Payload>) {
    && (forall v :: v in votes && v.k in net.honest ==> v.k < |w| && v in w[v.k].sent)
    && (forall p :: p in commits && p.index in net.honest ==> p.index < |w| && Genuine(p, SignedHeaders(w[p.index].signed)))
  }

  /**
   What a step of a node adds: a preparation for a view in which it has no other one, a signature at a
   height at which it signed no other header, on a quorum, and a decision on a quorum of commits.
   */
  ghost predicate Lawful(c: Config, log: Log, log': Log)
    requires c.n > 0
  {
    && Grows(log, log')
    && (forall v :: v in log'.sent - log.sent ==>
        v.k == c.me && forall u :: u in log'.sent && u.height == v.height && u.view == v.view ==> u.id == v.id)
    && (forall d :: d in log'.signed - log.signed ==>
        Backed(d, c, log') && forall e :: e in log'.signed && e.height == d.height ==> e.header == d.header)
    && (forall d :: d in log'.decided[|log.decided|..] ==> Witnessed(d, c, log'))
  }

  /** Node `i` handles an event and is left with another log, which is lawful if the node is honest. */
  ghost predicate Step(net: Net, w: World, w': World, i: nat)
    requires net.n > 0
  {
    && i < |w| && |w'| == |w| && w' == w[i := w'[i]]
    && (i in net.honest ==>
        && Lawful(ConfigOf(net, i), w[i], w'[i])
        && Authentic(net, w, w'[i].heard - w[i].heard, w'[i].commits - w[i].commits))
  }

  /** A run and the nodes that act in it. */
  ghost predicate IsRun(net: Net, run: seq<World>, acting: seq<nat>)
    requires net.n > 0
  {
    && |run| == |acting| + 1 && Initial(net, run[0])
    && forall t :: 0 <= t < |acting| ==> Step(net, run[t], run[t + 1], acting[t])
  }

  ghost predicate WorldOk(net: Net, w: World)
    requires net.n > 0
  {
    && |w| == net.n
    && forall i :: i in net.honest && i < net.n ==> LogOk(ConfigOf(net, i), w[i]) && Authentic(net, w, w[i].heard, w[i].commits)
  }

  lemma {:induction false} LawfulKeeps(c: Config, log: Log, log': Log)
    requires c.n > 0 && LogOk(c, log) && Lawful(c, log, log')
    ensures LogOk(c, log')
  {
    forall e | e in log'.signed ensures Backed(e, c, log') {
      if e in log.signed {
        assert Backed(e, c, log);
      }
    }
    assert SignedHeaders(log.signed) <= SignedHeaders(log'.signed);
    forall d | d in log'.decided ensures Witnessed(d, c, log') {
      if d in log.decided {
        assert Witnessed(d, c, log);
      } else {
        assert d in log'.decided[|log.decided|..];
      }
    }
  }

  /** A node whose log stays sound and only grows takes lawful steps. */
  lemma {:induction false} SoundIsLawful(c: Config, log: Log, log': Log)
    requires Kept(c, log') && Grows(log, log')
    ensures Lawful(c, log, log')
  {
    assert Mention(log');
  }

  lemma {:induction false} AuthenticStays(net: Net, w: World, w': World, votes: set<Vote>, commits: set<Payload>)
    requires Authentic(net, w, votes, commits) && |w| == |w'|
    requires forall i :: i in net.honest && i < |w| ==> Grows(w[i], w'[i])
    ensures Authentic(net, w', votes, commits)
  {
    forall p | p in commits && p.index in net.honest ensures Genuine(p, SignedHeaders(w'[p.index].signed)) {
      assert SignedHeaders(w[p.index].signed) <= SignedHeaders(w'[p.index].signed);
    }
  }

  lemma {:induction false} StepOk(net: Net, w: World, w': World, i: nat)
    requires NetOk(net) && WorldOk(net, w) && Step(net, w, w', i)
    ensures WorldOk(net, w')
  {
    forall j | j in net.honest && j < net.n
      ensures LogOk(ConfigOf(net, j), w'[j]) && Authentic(net, w', w'[j].heard, w'[j].commits)
    {
      AuthenticStays(net, w, w', w[j].heard, w[j].commits);
      if j == i && i in net.honest {
        AuthenticStays(net, w, w', w'[i].heard - w[i].heard, w'[i].commits - w[i].commits);
        LawfulKeeps(ConfigOf(net, i), w[i], w'[i]);
      }
    }
  }

  /** In every run each honest log stays sound, and all that is heard from honest nodes was sent. */
  lemma {:induction false} RunOk(net: Net, run: seq<World>, acting: seq<nat>, t: nat)
    requires NetOk(net) && IsRun(net, run, acting) && t < |run|
    ensures WorldOk(net, run[t])
  {
    if t > 0 {
      RunOk(net, run, acting, t - 1);
      StepOk(net, run[t - 1], run[t], acting[t - 1]);
    }
  }

  /** Two quorums share an honest validator. */
  lemma {:induction false} QuorumsMeet(net: Net, a: set<nat>, b: set<nat>) returns (k: nat)
    requires NetOk(net) && FewFaulty(net) && a <= All(net.n) && b <= All(net.n) && |a| >= M(net.n) && |b| >= M(net.n)
    ensures k in a && k in b && k in net.honest && k < net.n
  {
    assert |a + b| <= net.n by { Smaller(a + b, All(net.n)); }
    assert |a * b| == |a| + |b| - |a + b|;
    var faulty := All(net.n) - net.honest;
    if a * b <= faulty {
      Smaller(a * b, faulty);
      assert false;
    }
    k :| k in a * b && k !in faulty;
  }

  lemma {:induction false} Smaller(a: set<nat>, b: set<nat>)
    requires a <= b
    ensures |a| <= |b|
  {
    assert b == a + (b - a);
  }

  /**
   A commit certificate for `header`: valid signatures of M validators. A signature of an honest
   validator is valid only if it made it.
   */
  ghost predicate Certificate(net: Net, w: World, signers: set<nat>, header: Header)
    requires net.n > 0
  {
    && |w| == net.n && signers <= All(net.n) && |signers| >= M(net.n)
    && forall k :: k in signers && k in net.honest && k < net.n ==> header in SignedHeaders(w[k].signed)
  }

  /** No two blocks of one height are ever certified, whatever the views. */
  lemma {:induction false} OneBlockPerHeight(
    net: Net, run: seq<World>, acting: seq<nat>, t: nat, a: set<nat>, header: Header, b: set<nat>, header': Header)
    requires NetOk(net) && FewFaulty(net) && IsRun(net, run, acting) && t < |run|
    requires Certificate(net, run[t], a, header) && Certificate(net, run[t], b, header')
    requires header.height == header'.height
    ensures header == header'
  {
    RunOk(net, run, acting, t);
    var k := QuorumsMeet(net, a, b);
    var log := run[t][k];
    var d :| d in log.signed && d.header == header;
    var e :| e in log.signed && e.header == header';
    assert Backed(d, ConfigOf(net, k), log) && Backed(e, ConfigOf(net, k), log);
  }

  /** Certificates of different moments agree as well: what is signed stays signed. */
  lemma {:induction false} CertificateStays(net: Net, run: seq<World>, acting: seq<nat>, t: nat, u: nat, a: set<nat>, header: Header)
    requires NetOk(net) && IsRun(net, run, acting) && t <= u < |run| && Certificate(net, run[t], a, header)
    ensures Certificate(net, run[u], a, header)
    decreases u - t
  {
    if t < u {
      CertificateStays(net, run, acting, t, u - 1, a, header);
      assert Step(net, run[u - 1], run[u], acting[u - 1]);
      forall k | k in a && k in net.honest && k < net.n ensures header in SignedHeaders(run[u][k].signed) {
        var e :| e in run[u - 1][k].signed && e.header == header;
        assert e in run[u][k].signed;
      }
    }
  }

  // ---- decided blocks ----

  function Signers(ps: seq<Payload>): set<nat> {
    set p | p in ps && p.index >= 0 :: p.index
  }

  lemma {:induction false} SignersCount(ps: seq<Payload>)
    requires InOrder(ps) && forall p :: p in ps ==> p.index >= 0
    ensures |Signers(ps)| == |ps|
  {
    if ps != [] {
      var rest, last := ps[..|ps| - 1], ps[|ps| - 1];
      SignersCount(rest);
      assert Signers(ps) == Signers(rest) + {last.index};
      assert last.index !in Signers(rest);
    }
  }

  /** The witness of a decided block is a certificate when its commits sign the block. */
  lemma {:induction false} CertifiedIsCertificate(net: Net, w: World, i: nat, d: Decision)
    requires NetOk(net) && WorldOk(net, w) && i in net.honest && i < net.n && d in w[i].decided && Certified(d)
    ensures Certificate(net, w, Signers(d.commits), d.header)
  {
    assert Witnessed(d, ConfigOf(net, i), w[i]);
    SignersCount(d.commits);
    forall k | k in Signers(d.commits) && k in net.honest && k < net.n ensures d.header in SignedHeaders(w[k].signed) {
      var p :| p in d.commits && p.index == k;
      assert Verifies(p, d.header);
    }
  }

  /** Honest nodes that decide certified blocks at one height decide the same block, whenever they do. */
  lemma {:induction false} DecidedAgree(
    net: Net, run: seq<World>, acting: seq<nat>, t: nat, i: nat, d: Decision, u: nat, j: nat, e: Decision)
    requires NetOk(net) && FewFaulty(net) && IsRun(net, run, acting) && t <= u < |run| && |run[t]| == |run[u]| == net.n
    requires i in net.honest && i < net.n && j in net.honest && j < net.n
    requires d in run[t][i].decided && e in run[u][j].decided && Certified(d) && Certified(e)
    requires d.header.height == e.header.height
    ensures d.header == e.header
  {
    RunOk(net, run, acting, t);
    RunOk(net, run, acting, u);
    CertifiedIsCertificate(net, run[t], i, d);
    CertifiedIsCertificate(net, run[u], j, e);
    CertificateStays(net, run, acting, t, u, Signers(d.commits), d.header);
    OneBlockPerHeight(net, run, acting, u, Signers(d.commits), d.header, Signers(e.commits), e.header);
  }

  // ---- what a signature rests on ----

  /**
   The preparations that a signature counts: those of M validators, of which all but the stale ones are
   for the signed request, and those of honest validators were really sent. A backup counts no stale ones.
   */
  ghost predicate PreparedBy(net: Net, w: World, i: nat, d: Signed)
    requires net.n > 0
  {
    && |w| == net.n && i < net.n && d.backers <= All(net.n) && |d.backers| >= M(net.n)
    && (i != net.primaryOf(d.height, d.view) ==> d.stale == {})
    && (forall k :: k in d.backers - d.stale ==> Vote(d.height, d.view, k, d.id) in (if k == i then w[i].sent else w[i].heard))
    && (forall k :: k in d.backers - d.stale && k in net.honest ==> Vote(d.height, d.view, k, d.id) in w[k].sent)
  }

  lemma {:induction false} SignedIsPrepared(net: Net, w: World, i: nat, d: Signed)
    requires NetOk(net) && WorldOk(net, w) && i in net.honest && i < net.n && d in w[i].signed
    ensures PreparedBy(net, w, i, d)
    ensures var p := net.primaryOf(d.height, d.view); p in net.honest ==> Vote(d.height, d.view, p, d.id) in w[p].sent
  {
    assert Backed(d, ConfigOf(net, i), w[i]);
    forall k | k in d.backers - d.stale && k in net.honest ensures Vote(d.height, d.view, k, d.id) in w[k].sent {
      assert k != i ==> Vote(d.height, d.view, k, d.id) in w[i].heard;
    }
  }

  /**
   Honest nodes that sign in the same view sign the same header, on preparations of M validators for the
   same request as far as these are not stale, which only a primary can count.
   */
  lemma {:induction false} SameViewSameHeader(
    net: Net, run: seq<World>, acting: seq<nat>, t: nat, i: nat, d: Signed, j: nat, e: Signed)
    requires NetOk(net) && FewFaulty(net) && IsRun(net, run, acting) && t < |run|
    requires i in net.honest && i < net.n && j in net.honest && j < net.n && |run[t]| == net.n
    requires d in run[t][i].signed && e in run[t][j].signed
    requires d.height == e.height && d.view == e.view
    ensures d.header == e.header && d.id == e.id
    ensures PreparedBy(net, run[t], i, d) && PreparedBy(net, run[t], j, e)
  {
    RunOk(net, run, acting, t);
    var w := run[t];
    assert Backed(d, ConfigOf(net, i), w[i]) && Backed(e, ConfigOf(net, j), w[j]);
    SignedIsPrepared(net, w, i, d);
    SignedIsPrepared(net, w, j, e);
    var k := net.primaryOf(d.height, d.view);
    if k !in net.honest {
      k := QuorumsMeet(net, d.backers, e.backers);
    }
    assert Vote(d.height, d.view, k, d.id) in w[k].sent && Vote(d.height, d.view, k, e.id) in w[k].sent;
  }

  /** A signed header was proposed: by the primary if it is honest, and it is that of the request in any case. */
  lemma {:induction false} SignedWasProposed(net: Net, run: seq<World>, acting: seq<nat>, t: nat, i: nat, e: Signed)
    requires NetOk(net) && IsRun(net, run, acting) && t < |run|
    requires i in net.honest && i < net.n && |run[t]| == net.n && e in run[t][i].signed
    ensures var p := net.primaryOf(e.height, e.view);
      && e.header == Header(e.height, net.prevHash(e.height), p, e.id.req)
      && (p in net.honest ==> Vote(e.height, e.view, p, e.id) in run[t][p].sent)
  {
    RunOk(net, run, acting, t);
    assert Backed(e, ConfigOf(net, i), run[t][i]);
    SignedIsPrepared(net, run[t], i, e);
  }
}
