/**
 Messages of dBFT (pkg/dbft/payload, pkg/dbft/context.go) and what a node has said and heard.
 Hashes and signatures are ideal: a hash is the request it identifies, a signature is the pair of
 signer and header.
 */
module DbftTypes {
  import opened Wrappers

  type Tx = nat

  /** The proposal of a primary; its transactions are given by hash. */
  datatype Request = Request(timestamp: nat, nonce: nat, nextConsensus: nat, txHashes: seq<Tx>)

  /** Hash of a PrepareRequest payload. */
  datatype PrepId = PrepId(height: nat, view: nat, index: int, req: Request)

  /** The header that is signed; `prevHash` is the block that the chain ends with. */
  datatype Header = Header(height: nat, prevHash: nat, primary: nat, req: Request)

  type View = v: nat | v < 256

  datatype Signature = Signature(signer: int, header: Header)

  datatype Body =
    | PrepareRequest(req: Request)
    | PrepareResponse(prepHash: PrepId)
    | ChangeView(newView: View)
    | Commit(sig: Signature)
    | RecoveryRequest
    | Recovery(changeViews: seq<Payload>, request: Option<Payload>, responses: seq<Payload>, commits: seq<Payload>)

  datatype Payload = Payload(height: nat, view: nat, index: int, body: Body)

  /** The number of validators that may be faulty, and the quorum. */
  function F(n: nat): (f: int)
    requires n > 0
    ensures 3 * f < n <= 3 * f + 3
  {
    (n - 1) / 3
  }

  function M(n: nat): int
    requires n > 0
  {
    n - F(n)
  }

  /** View numbers are bytes. */
  function NextView(v: nat): View {
    (v + 1) % 256
  }

  /** Remainder of integer division towards zero, as the source's % computes it. */
  function TruncMod(a: int, b: int): int
    requires b > 0
  {
    if a >= 0 then a % b else -((-a) % b)
  }

  /** The primary of a view: the remainder of height minus view, never negative. */
  function GetPrimaryIndex(n: nat, height: nat, view: nat): (p: nat)
    requires n > 0
    ensures p < n && p == (height - view) % n
  {
    var p := TruncMod(height - view, n);
    assert p + (if p >= 0 then 0 else n) == (height - view) % n by {
      if height - view < 0 { NegativeMod(height - view, n); }
    }
    if p >= 0 then p else p + n
  }

  /** The primaries of all heights and views. */
  function Schedule(n: nat): (f: (nat, nat) -> nat)
    requires n > 0
    ensures forall h: nat, v: nat :: f(h, v) == GetPrimaryIndex(n, h, v)
  {
    (h: nat, v: nat) => GetPrimaryIndex(n, h, v)
  }

  lemma {:induction false} NegativeMod(a: int, b: int)
    requires b > 0 && a < 0
    ensures a % b == if (-a) % b == 0 then 0 else b - (-a) % b
  {
    var q, r := (-a) / b, (-a) % b;
    if r == 0 {
      RemainderIs(a, b, -q, 0);
    } else {
      RemainderIs(a, b, -q - 1, b - r);
    }
  }

  /** Validator `k` prepared `id` at this height and view, as primary or as backup. */
  datatype Vote = Vote(height: nat, view: nat, k: int, id: PrepId)

  /**
   A signature of this node over a header, with the validators whose preparations it counted. The
   preparations of `stale` were for another request.
   */
  datatype Signed = Signed(height: nat, view: nat, id: PrepId, header: Header, backers: set<nat>, stale: set<nat>)

  /** A block that was handed to the chain, with the commits that make up its witness. */
  datatype Decision = Decision(view: nat, header: Header, commits: seq<Payload>)

  /** Everything a node has prepared, signed, been told and decided. */
  datatype Log = Log(sent: set<Vote>, signed: set<Signed>, heard: set<Vote>, commits: set<Payload>, decided: seq<Decision>)

  const EmptyLog: Log := Log({}, {}, {}, {}, [])

  /** The request that a preparation payload supports; other payloads support none. */
  function IdOf(p: Payload): PrepId {
    match p.body
    case PrepareRequest(req) => PrepId(p.height, p.view, p.index, req)
    case PrepareResponse(prepHash) => prepHash
    case _ => PrepId(0, 0, -1, Request(0, 0, 0, []))
  }

  /** The preparations that a message carries. */
  function Votes(msg: Payload): set<Vote> {
    match msg.body
    case PrepareRequest(_) => {Vote(msg.height, msg.view, msg.index, IdOf(msg))}
    case PrepareResponse(_) => {Vote(msg.height, msg.view, msg.index, IdOf(msg))}
    case Recovery(cvs, request, responses, commits) =>
      (if request.Some? then Votes(request.value) else {})
      + (set p, v | p in responses && v in Votes(p) :: v)
      + (set p, v | p in cvs && v in Votes(p) :: v)
      + (set p, v | p in commits && v in Votes(p) :: v)
    case _ => {}
  }

  function SignedHeaders(signed: set<Signed>): set<Header> {
    set e | e in signed :: e.header
  }

  /** The commits that a message carries. */
  function Commits(msg: Payload): set<Payload> {
    match msg.body
    case Commit(_) => {msg}
    case Recovery(cvs, request, responses, commits) =>
      (if request.Some? then Commits(request.value) else {})
      + (set p, q | p in responses && q in Commits(p) :: q)
      + (set p, q | p in cvs && q in Commits(p) :: q)
      + (set p, q | p in commits && q in Commits(p) :: q)
    case _ => {}
  }

  /** A commit that its sender made: the signature is its own, of one of these headers, at this height. */
  predicate Genuine(p: Payload, headers: set<Header>) {
    && p.body.Commit? && p.body.sig.signer == p.index
    && p.body.sig.header in headers && p.body.sig.header.height == p.height
  }

  /** The commit is a valid signature of the header. */
  predicate Verifies(p: Payload, header: Header) {
    p.body.Commit? && p.body.sig == Signature(p.index, header)
  }

  /** The witness of a decided block is valid. */
  predicate Certified(d: Decision) {
    forall p :: p in d.commits ==> Verifies(p, d.header)
  }

  /** Messages in the name of `me` are ones that `me` sent. */
  ghost predicate OwnOk(msg: Payload, me: int, log: Log) {
    && (forall v :: v in Votes(msg) && v.k == me ==> v in log.sent)
    && (forall p :: p in Commits(msg) && p.index == me ==> Genuine(p, SignedHeaders(log.signed)))
  }

  /**
   The fixed part of a node: the number of validators, its own index (-1 when it only watches), the
   chain it extends and the schedule of primaries.
   */
  datatype Config = Config(n: nat, me: int, prevHash: nat -> nat, primaryOf: (nat, nat) -> nat)

  ghost predicate ConfigOk(c: Config) {
    c.n > 0 && -1 <= c.me < c.n && forall h: nat, v: nat :: c.primaryOf(h, v) < c.n
  }

  /**
   A signature rests on a quorum of preparations, as far as the node was told. A backup counts only
   preparations of the request that it signs.
   */
  ghost predicate Backed(e: Signed, c: Config, log: Log)
    requires c.n > 0
  {
    var primary := c.primaryOf(e.height, e.view);
    && e.id.height == e.height && e.id.view == e.view && e.id.index == primary
    && e.header == Header(e.height, c.prevHash(e.height), primary, e.id.req)
    && |e.backers| >= M(c.n) && (forall k :: k in e.backers ==> k < c.n)
    && Vote(e.height, e.view, primary, e.id) in (if c.me == primary then log.sent else log.heard)
    && (c.me != primary ==> e.stale == {})
    && (forall k :: k in e.backers && k !in e.stale ==>
        Vote(e.height, e.view, k, e.id) in (if k == c.me then log.sent else log.heard))
  }

  /** Of different validators, and in their order. */
  ghost predicate InOrder(ps: seq<Payload>) {
    forall i, j :: 0 <= i < j < |ps| ==> ps[i].index < ps[j].index
  }

  /** The witness of a decision is a quorum of commits, one of a validator and in their order, that the node had. */
  ghost predicate Witnessed(d: Decision, c: Config, log: Log)
    requires c.n > 0
  {
    && |d.commits| >= M(c.n)
    && InOrder(d.commits)
    && (forall p :: p in d.commits ==>
        && p.body.Commit? && 0 <= p.index < c.n
        && (if p.index == c.me then Genuine(p, SignedHeaders(log.signed)) else p in log.commits))
  }

  /**
   What an honest node keeps: one preparation per height and view, one signed header per height,
   every signature backed and every decision witnessed.
   */
  ghost predicate LogOk(c: Config, log: Log)
    requires c.n > 0
  {
    && (forall v :: v in log.sent ==> v.k == c.me)
    && (forall v, w :: v in log.sent && w in log.sent && v.height == w.height && v.view == w.view ==> v.id == w.id)
    && (forall d, e :: d in log.signed && e in log.signed && d.height == e.height ==> d.header == e.header)
    && (forall e :: e in log.signed ==> Backed(e, c, log))
    && (forall d :: d in log.decided ==> Witnessed(d, c, log))
  }

  ghost predicate Grows(log: Log, log': Log) {
    && log.sent <= log'.sent && log.signed <= log'.signed && log.heard <= log'.heard
    && log.commits <= log'.commits && log.decided <= log'.decided
  }
}
