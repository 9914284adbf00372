/**
 What a dBFT node stores (pkg/dbft/context.go) and the invariant of it: the node prepares once per
 view, signs one header per height, only on a quorum, and still holds the commit of the height it
 signed at. The lemmas say that each single update of the state keeps the invariant.
 */
module DbftState {
  import opened Wrappers
  import opened DbftTypes

  datatype Seen = Seen(height: nat, view: nat)

  /** A message of validator `k` that was handled. */
  datatype Contact = Contact(k: int, height: nat, view: nat)

  function ContactOf(msg: Payload): Contact {
    Contact(msg.index, msg.height, msg.view)
  }

  /**
   What the surroundings answer while an event is handled: the clock, the transactions of the pool,
   the address of the next validators, the height of the chain as others extend it, the two
   verification callbacks, and whether the chain adds a block when its witness is valid.
   */
  datatype Env = Env(
    now: nat, increment: nat, nonce: nat, pool: seq<Tx>, known: set<Tx>, nextConsensus: nat, chain: nat,
    verifiesRequest: Payload -> bool, acceptsBlock: Header -> bool, addsBlock: Header -> bool)

  /** The chain takes the decided block only with a valid witness. */
  predicate Joins(d: Decision, env: Env) {
    Certified(d) && env.addsBlock(d.header)
  }

  /** The preparations stored in the current view. */
  ghost predicate PrepsOk(n: nat, me: int, height: nat, view: nat, primary: nat, prep: seq<Option<Payload>>, log: Log) {
    && |prep| == n && primary < n
    && (forall k :: 0 <= k < n && prep[k].Some? ==> PrepOk(primary, me, height, view, k, prep[k].value, log))
    && (me != primary && prep[primary].Some? ==>
        forall k :: 0 <= k < n && prep[k].Some? ==> IdOf(prep[k].value) == IdOf(prep[primary].value))
    && (0 <= me < n && me != primary && prep[me].Some? ==> prep[primary].Some?)
    && (forall v :: v in log.sent ==> SentBefore(me, height, view, prep, v))
  }

  ghost predicate PrepOk(primary: nat, me: int, height: nat, view: nat, k: nat, p: Payload, log: Log) {
    && p.height == height && p.view == view && p.index == k
    && (if k == primary then p.body.PrepareRequest? else p.body.PrepareResponse?)
    && Vote(height, view, k, IdOf(p)) in (if k == me then log.sent else log.heard)
  }

  /** A preparation this node sent belongs to an earlier view, or is the one it has stored. */
  ghost predicate SentBefore(me: int, height: nat, view: nat, prep: seq<Option<Payload>>, v: Vote) {
    || v.height < height
    || (v.height == height && v.view < view)
    || (v.height == height && v.view == view && 0 <= me < |prep| && prep[me].Some?
        && (prep[me].value.body.PrepareRequest? || prep[me].value.body.PrepareResponse?)
        && IdOf(prep[me].value) == v.id)
  }

  /** The commit lock: a node that signed at this height still holds its commit and the request. */
  ghost predicate LockOk(n: nat, me: int, height: nat, primary: nat, prep: seq<Option<Payload>>, commits: seq<Option<Payload>>, log: Log) {
    && |commits| == n && |prep| == n && primary < n && me < n
    && (forall e :: e in log.signed ==> e.height <= height && e.header.height == e.height)
    && (me < 0 ==> log.signed == {} && log.sent == {})
    && (0 <= me && commits[me].Some? ==> OwnCommitOk(me, height, commits[me].value, log))
    && (0 <= me && commits[me].None? ==> forall e :: e in log.signed ==> e.height < height)
    && (0 <= me && commits[me].Some? ==> prep[primary].Some?)
    && (forall k :: 0 <= k < n && commits[k].Some? ==>
        commits[k].value.body.Commit? && commits[k].value.index == k && (k == me || commits[k].value in log.commits))
  }

  /**
   `earlyPrep` and `earlyCommits` are what was stored when the request of the view was sent or stored.
   A commit of the view that came later was checked against the header. A primary still has the
   responses that it had then, and those that came later are for its request.
   */
  ghost predicate EarlyOk(n: nat, me: int, view: nat, primary: nat, prep: seq<Option<Payload>>, commits: seq<Option<Payload>>,
    earlyPrep: seq<Option<Payload>>, earlyCommits: seq<Option<Payload>>, header: Header)
  {
    && |earlyPrep| == |earlyCommits| == |prep| == |commits| == n && primary < n
    && (prep[primary].Some? ==>
      && (forall k :: 0 <= k < n && commits[k].Some? && commits[k].value.view == view && commits[k] != earlyCommits[k] ==>
          Verifies(commits[k].value, header))
      && (me == primary ==> earlyPrep[me].None?)
      && (me == primary ==> forall k :: 0 <= k < n && earlyPrep[k].Some? ==> prep[k] == earlyPrep[k])
      && (me == primary ==> forall k :: 0 <= k < n && prep[k].Some? && earlyPrep[k].None? ==>
          IdOf(prep[k].value) == IdOf(prep[primary].value)))
  }

  ghost predicate OwnCommitOk(me: int, height: nat, p: Payload, log: Log) {
    p.index == me && p.height == height && Genuine(p, SignedHeaders(log.signed))
  }

  /** The request fields and the cached header are those of the stored request. */
  ghost predicate RequestOk(
    n: nat, height: nat, primary: nat, prep: seq<Option<Payload>>, current: Request, header: Option<Header>, prevHash: nat -> nat)
  {
    && primary < |prep|
    && (prep[primary].Some? ==> prep[primary].value.body == PrepareRequest(current))
    && (header.Some? ==> prep[primary].Some? && header.value == Header(height, prevHash(height), primary, current))
  }

  ghost predicate AllChangeViews(s: seq<Option<Payload>>) {
    forall k :: 0 <= k < |s| && s[k].Some? ==> s[k].value.body.ChangeView?
  }

  /** What is kept for recovery messages asked for earlier views than the one that was entered. */
  ghost predicate AllBelow(s: seq<Option<Payload>>, view: nat) {
    forall k :: 0 <= k < |s| && s[k].Some? ==> s[k].value.body.ChangeView? && s[k].value.body.newView < view
  }

  /** Everything broadcast is on record. */
  ghost predicate OutOk(me: int, out: seq<Payload>, log: Log) {
    forall p :: p in out ==> OwnOk(p, me, log) && Votes(p) <= log.sent + log.heard
  }

  function Filled(s: seq<Option<Payload>>): set<nat> {
    set k: nat | k < |s| && s[k].Some?
  }

  /** Validators whose preparation is for another request. */
  function Stale(s: seq<Option<Payload>>, id: PrepId): set<nat> {
    set k: nat | k < |s| && s[k].Some? && IdOf(s[k].value) != id
  }

  /** Slots that hold a message of this view. */
  function InView(s: seq<Option<Payload>>, view: nat): set<nat> {
    set k: nat | k < |s| && s[k].Some? && s[k].value.view == view
  }

  /** Validators that ask for view `view` or a later one. */
  function Asking(s: seq<Option<Payload>>, view: nat): set<nat> {
    set k: nat | k < |s| && s[k].Some? && s[k].value.body.ChangeView? && s[k].value.body.newView >= view
  }

  /** Validators not heard from at this height and view. */
  function Lost(s: seq<Option<Seen>>, height: nat, view: nat): set<nat> {
    set k: nat | k < |s| && (s[k].None? || s[k].value.height < height || s[k].value.view < view)
  }

  /** What a node stores, what it has sent, and its log. */
  datatype State = State(
    height: nat, view: nat, primary: nat, current: Request,
    transactions: set<Tx>, missing: seq<Tx>, blockSent: bool,
    prep: seq<Option<Payload>>, commits: seq<Option<Payload>>, changeViews: seq<Option<Payload>>,
    lastChangeViews: seq<Option<Payload>>, lastSeen: seq<Option<Seen>>, header: Option<Header>, out: seq<Payload>,
    earlyPrep: seq<Option<Payload>>, earlyCommits: seq<Option<Payload>>, met: set<Contact>, log: Log)
  {
    function Block(prevHash: nat -> nat): Header {
      Header(height, prevHash(height), primary, current)
    }
  }

  ghost predicate Shaped(c: Config, s: State) {
    && ConfigOk(c) && s.primary < c.n && s.view < 256
    && |s.prep| == |s.commits| == |s.changeViews| == c.n
    && |s.lastChangeViews| == |s.lastSeen| == |s.earlyPrep| == |s.earlyCommits| == c.n
  }

  /** The log is sound, kept out of sight as well. */
  ghost predicate Kept(c: Config, log: Log) {
    c.n > 0 && forall l: Log {:trigger Mention(l)} :: l == log ==> LogOk(c, l)
  }

  /** The invariant, kept out of sight of the proofs that only hand it on. */
  ghost predicate StateOk(c: Config, s: State)
    ensures StateOk(c, s) ==> Shaped(c, s) && Kept(c, s.log)
  {
    assert Mention(s);
    forall t: State {:trigger Mention(t)} :: t == s ==> Invariant(c, t)
  }

  ghost predicate Invariant(c: Config, s: State) {
    && ConfigOk(c) && s.view < 256
    && s.primary == c.primaryOf(s.height, s.view)
    && |s.lastSeen| == c.n && |s.changeViews| == c.n
    && |s.lastSeen| == c.n && SeenExact(c.n, c.me, s.height, s.lastSeen, s.met)
    && Announced(c.me, s.out, s.log.sent, s.log.signed)
    && |s.lastChangeViews| == c.n && AllChangeViews(s.changeViews) && AllBelow(s.lastChangeViews, s.view)
    && PrepsOk(c.n, c.me, s.height, s.view, s.primary, s.prep, s.log)
    && LockOk(c.n, c.me, s.height, s.primary, s.prep, s.commits, s.log)
    && RequestOk(c.n, s.height, s.primary, s.prep, s.current, s.header, c.prevHash)
    && EarlyOk(c.n, c.me, s.view, s.primary, s.prep, s.commits, s.earlyPrep, s.earlyCommits, s.Block(c.prevHash))
    && LogOk(c, s.log)
    && OutOk(c.me, s.out, s.log)
  }

  /** Everything that the node has prepared or signed it has also broadcast; kept out of sight. */
  ghost predicate Announced(me: int, out: seq<Payload>, sent: set<Vote>, signed: set<Signed>) {
    forall o: seq<Payload> {:trigger Mention(o)} :: o == out ==> AllAnnounced(me, o, sent, signed)
  }

  ghost predicate AllAnnounced(me: int, out: seq<Payload>, sent: set<Vote>, signed: set<Signed>) {
    (forall v :: v in sent ==> HasVote(out, v)) && (forall e :: e in signed ==> HasCommit(out, me, e.header))
  }

  lemma AnnouncedIs(me: int, out: seq<Payload>, sent: set<Vote>, signed: set<Signed>)
    ensures Announced(me, out, sent, signed) <==> AllAnnounced(me, out, sent, signed)
  {
    assert Mention(out);
  }

  ghost predicate HasVote(out: seq<Payload>, v: Vote) {
    exists p :: p in out && (p.body.PrepareRequest? || p.body.PrepareResponse?) && v == Vote(p.height, p.view, p.index, IdOf(p))
  }

  ghost predicate HasCommit(out: seq<Payload>, me: int, header: Header) {
    exists p :: p in out && p.index == me && p.height == header.height && p.body == Commit(Signature(me, header))
  }

  lemma {:induction false} AnnouncedMore(me: int, out: seq<Payload>, p: Payload, sent: set<Vote>, signed: set<Signed>)
    requires Announced(me, out, sent, signed)
    ensures Announced(me, out + [p], sent, signed)
  {
    AnnouncedIs(me, out, sent, signed);
    AnnouncedIs(me, out + [p], sent, signed);
    forall v | v in sent ensures HasVote(out + [p], v) {
      assert HasVote(out, v);
    }
    forall e | e in signed ensures HasCommit(out + [p], me, e.header) {
      assert HasCommit(out, me, e.header);
    }
  }

  lemma {:induction false} AnnouncedVote(me: int, out: seq<Payload>, p: Payload, sent: set<Vote>, signed: set<Signed>)
    requires Announced(me, out, sent, signed) && (p.body.PrepareRequest? || p.body.PrepareResponse?)
    ensures Announced(me, out + [p], sent + {Vote(p.height, p.view, p.index, IdOf(p))}, signed)
  {
    AnnouncedMore(me, out, p, sent, signed);
    AnnouncedIs(me, out + [p], sent, signed);
    assert p in out + [p];
    AnnouncedIs(me, out + [p], sent + {Vote(p.height, p.view, p.index, IdOf(p))}, signed);
  }

  lemma {:induction false} AnnouncedCommit(me: int, out: seq<Payload>, p: Payload, sent: set<Vote>, signed: set<Signed>, e: Signed)
    requires Announced(me, out, sent, signed)
    requires p.index == me && p.height == e.header.height && p.body == Commit(Signature(me, e.header))
    ensures Announced(me, out + [p], sent, signed + {e})
  {
    AnnouncedMore(me, out, p, sent, signed);
    AnnouncedIs(me, out + [p], sent, signed);
    assert p in out + [p];
    assert HasCommit(out + [p], me, e.header);
    AnnouncedIs(me, out + [p], sent, signed + {e});
  }

  /** What is recorded of each other validator is the last view of the last height of its messages; kept out of sight. */
  ghost predicate SeenExact(n: nat, me: int, height: nat, lastSeen: seq<Option<Seen>>, met: set<Contact>) {
    forall x: set<Contact> {:trigger Mention(x)} :: x == met ==> Recorded(n, me, height, lastSeen, x)
  }

  lemma RecordedIs(n: nat, me: int, height: nat, lastSeen: seq<Option<Seen>>, met: set<Contact>)
    ensures SeenExact(n, me, height, lastSeen, met) <==> Recorded(n, me, height, lastSeen, met)
  {
    assert Mention(met);
  }

  ghost predicate Recorded(n: nat, me: int, height: nat, lastSeen: seq<Option<Seen>>, met: set<Contact>) {
    && |lastSeen| == n
    && (forall m :: m in met ==> m.height <= height)
    && (forall k :: 0 <= k < n && lastSeen[k].Some? ==> lastSeen[k].value.height <= height)
    && forall k :: 0 <= k < n && k != me ==> RecordOk(k, lastSeen[k], met)
  }

  ghost predicate RecordOk(k: int, r: Option<Seen>, met: set<Contact>) {
    && (r.None? ==> forall m :: m in met ==> m.k != k)
    && (r.Some? ==> Contact(k, r.value.height, r.value.view) in met)
    && (r.Some? ==> forall m :: m in met && m.k == k ==>
        m.height < r.value.height || (m.height == r.value.height && m.view <= r.value.view))
  }

  function NoPayloads(n: nat): (r: seq<Option<Payload>>)
    ensures |r| == n && forall k :: 0 <= k < n ==> r[k].None?
  {
    seq(n, i => None)
  }

  /** The requests for a view below `view`. */
  function Skipped(s: seq<Option<Payload>>, view: nat): (r: seq<Option<Payload>>)
    ensures |r| == |s|
  {
    seq(|s|, i requires 0 <= i < |s| =>
      if s[i].Some? && s[i].value.body.ChangeView? && s[i].value.body.newView < view then s[i] else None)
  }

  lemma {:induction false} BelowAfter(s: seq<Option<Payload>>, view: nat, n: nat)
    ensures AllBelow(NoPayloads(n), view) && AllBelow(Skipped(s, view), view)
    ensures forall k :: 0 <= k < |s| && s[k].Some? && s[k].value.body.ChangeView? && s[k].value.body.newView < view ==>
      Skipped(s, view)[k] == s[k]
  {
  }

  /** `s'` is the start of a view: nothing stored, nothing said. */
  ghost predicate IsCleared(c: Config, s: State, s': State, height: nat, view: nat) {
    && s'.height == height && s'.view == view && s'.primary == c.primaryOf(height, view)
    && s'.prep == s'.commits == s'.changeViews == NoPayloads(c.n)
    && |s'.lastChangeViews| == |s.lastChangeViews| && AllBelow(s'.lastChangeViews, view)
    && |s'.lastSeen| == |s.lastSeen| && s'.earlyPrep == s'.earlyCommits == NoPayloads(c.n)
    && (forall k :: 0 <= k < |s.lastSeen| && s'.lastSeen[k] != s.lastSeen[k] ==> s'.lastSeen[k] == Some(Seen(height, view)))
    && (forall k :: 0 <= k < |s.lastSeen| && k != c.me ==> s'.lastSeen[k] == s.lastSeen[k])
    && s'.header == None && s'.out == s.out && s'.met == s.met && s'.log == s.log
  }

  /** No invariant depends on the transactions in hand. */
  lemma {:induction false} TransactionsOk(c: Config, s: State, transactions: set<Tx>, missing: seq<Tx>, blockSent: bool)
    requires StateOk(c, s)
    ensures StateOk(c, s.(transactions := transactions, missing := missing, blockSent := blockSent))
  {
    assert Mention(s);
  }

  lemma {:induction false} InitialOk(c: Config, s: State)
    requires ConfigOk(c) && s.view < 256 && s.primary == c.primaryOf(s.height, s.view)
    requires s.prep == s.commits == s.changeViews == s.lastChangeViews == NoPayloads(c.n)
    requires s.lastSeen == seq(c.n, i => None) && s.earlyPrep == s.earlyCommits == NoPayloads(c.n)
    requires s.header == None && s.out == [] && s.met == {} && s.log == EmptyLog
    ensures StateOk(c, s)
  {
    assert Mention(s);
    AnnouncedIs(c.me, s.out, {}, {});
    RecordedIs(c.n, c.me, s.height, s.lastSeen, s.met);
  }

  /** The node has prepared or signed at this height. */
  ghost predicate Spoke(log: Log, height: nat) {
    (exists v :: v in log.sent && v.height == height) || (exists e :: e in log.signed && e.height == height)
  }

  /**
   A fresh view is sound exactly when the node has not spoken there: at a later height, in a later view
   if it has not signed, or at the height once more if it has said nothing at all.
   */
  lemma {:induction false} ClearedExactly(c: Config, s: State, s': State, height: nat, view: nat)
    requires StateOk(c, s) && view < 256 && IsCleared(c, s, s', height, view)
    requires s.height < height || (s.height == height && (s.view < view || view == 0))
    ensures StateOk(c, s') <==>
      || s.height < height
      || (if s.view < view then c.me < 0 || s.commits[c.me].None? else !Spoke(s.log, height))
    ensures c.me < 0 ==> !Spoke(s.log, height)
  {
    if s.height < height || (if s.view < view then c.me < 0 || s.commits[c.me].None? else !Spoke(s.log, height)) {
      ClearedOk(c, s, s', height, view);
    } else {
      ClearedLost(c, s, s');
    }
    assert Mention(s);
  }

  lemma {:induction false} ClearedOk(c: Config, s: State, s': State, height: nat, view: nat)
    requires StateOk(c, s) && view < 256 && IsCleared(c, s, s', height, view)
    requires || s.height < height
      || (s.height == height && s.view < view && (c.me >= 0 ==> s.commits[c.me].None?))
      || (s.height == height && !Spoke(s.log, height))
    ensures StateOk(c, s')
  {
    assert Mention(s);
    assert Mention(s.met);
    forall k | 0 <= k < c.n && k != c.me ensures RecordOk(k, s'.lastSeen[k], s'.met) {
      assert RecordOk(k, s.lastSeen[k], s.met);
    }
    forall v | v in s.log.sent ensures SentBefore(c.me, height, view, s'.prep, v) {
      assert SentBefore(c.me, s.height, s.view, s.prep, v);
    }
  }

  lemma {:induction false} ClearedLost(c: Config, s: State, s': State)
    requires StateOk(c, s) && IsCleared(c, s, s', s.height, s'.view)
    requires if s.view < s'.view then 0 <= c.me && s.commits[c.me].Some? else s'.view == 0 && Spoke(s.log, s.height)
    ensures !StateOk(c, s')
  {
    assert Mention(s);
    assert StateOk(c, s') ==> Invariant(c, s') by { assert Mention(s'); }
    if s'.view == 0 {
      if v :| v in s.log.sent && v.height == s.height {
        assert !SentBefore(c.me, s.height, 0, s'.prep, v);
      }
    } else {
      var e :| e in s.log.signed && e.header == s.commits[c.me].value.body.sig.header;
    }
  }

  /** The log after a message is heard. */
  function Told(log: Log, msg: Payload): Log {
    log.(heard := log.heard + Votes(msg), commits := log.commits + Commits(msg))
  }

  /** The node learns of more preparations and commits. */
  lemma {:induction false} HeardOk(c: Config, s: State, msg: Payload)
    requires StateOk(c, s)
    ensures StateOk(c, s.(log := Told(s.log, msg)))
  {
    assert Mention(s);
    var log' := Told(s.log, msg);
    OutMono(c.me, s.out, s.log, log');
    LogMono(c, s.log, log');
    forall k | 0 <= k < c.n && s.prep[k].Some? ensures PrepOk(s.primary, c.me, s.height, s.view, k, s.prep[k].value, log') {
      assert PrepOk(s.primary, c.me, s.height, s.view, k, s.prep[k].value, s.log);
    }
  }

  /** What was backed and witnessed stays so. */
  lemma {:induction false} LogMono(c: Config, log: Log, log': Log)
    requires c.n > 0 && LogOk(c, log) && Grows(log, log')
    ensures forall e :: e in log.signed ==> Backed(e, c, log')
    ensures forall d :: d in log.decided ==> Witnessed(d, c, log')
  {
    forall e | e in log.signed ensures Backed(e, c, log') {
      assert Backed(e, c, log);
    }
    assert SignedHeaders(log.signed) <= SignedHeaders(log'.signed);
    forall d | d in log.decided ensures Witnessed(d, c, log') {
      assert Witnessed(d, c, log);
    }
  }

  /** The record of a validator once a message of it is handled. */
  function Noted(lastSeen: seq<Option<Seen>>, msg: Payload): seq<Option<Seen>>
    requires 0 <= msg.index < |lastSeen|
  {
    var hv := lastSeen[msg.index];
    if hv.None? || hv.value.height < msg.height || hv.value.view < msg.view
    then lastSeen[msg.index := Some(Seen(msg.height, msg.view))] else lastSeen
  }

  lemma {:induction false} SeenOk(c: Config, s: State, msg: Payload)
    requires StateOk(c, s) && 0 <= msg.index < c.n && msg.height == s.height
    ensures StateOk(c, s.(lastSeen := Noted(s.lastSeen, msg), met := s.met + {ContactOf(msg)}))
  {
    assert Mention(s);
    var lastSeen, met := Noted(s.lastSeen, msg), s.met + {ContactOf(msg)};
    RecordedIs(c.n, c.me, s.height, s.lastSeen, s.met);
    RecordedIs(c.n, c.me, s.height, lastSeen, met);
    forall k | 0 <= k < c.n && k != c.me ensures RecordOk(k, lastSeen[k], met) {
      assert RecordOk(k, s.lastSeen[k], s.met);
    }
  }

  lemma {:induction false} ChangeViewOk(c: Config, s: State, k: nat, p: Payload, out: seq<Payload>)
    requires StateOk(c, s) && k < c.n && p.body.ChangeView?
    requires out == s.out || out == s.out + [p]
    ensures StateOk(c, s.(changeViews := s.changeViews[k := Some(p)], out := out))
  {
    assert Mention(s);
    AnnouncedMore(c.me, s.out, p, s.log.sent, s.log.signed);
  }

  /** The stored responses that do not mismatch the request `id`. */
  function Purged(prep: seq<Option<Payload>>, id: PrepId): (r: seq<Option<Payload>>)
    ensures |r| == |prep|
  {
    seq(|prep|, i requires 0 <= i < |prep| =>
      if prep[i].Some? && prep[i].value.body.PrepareResponse? && prep[i].value.body.prepHash != id then None else prep[i])
  }

  /** Before the request is stored its fields and the purge of mismatching responses break nothing. */
  lemma {:induction false} ReceivingOk(c: Config, s: State, msg: Payload)
    requires StateOk(c, s) && s.prep[s.primary].None?
    ensures s.header.None? && StateOk(c, s.(current := msg.body.req, prep := Purged(s.prep, IdOf(msg))))
    requires msg.body.PrepareRequest?
  {
    assert Mention(s);
    var prep' := Purged(s.prep, IdOf(msg));
    forall k | 0 <= k < c.n && prep'[k].Some?
      ensures PrepOk(s.primary, c.me, s.height, s.view, k, prep'[k].value, s.log)
    {
      assert PrepOk(s.primary, c.me, s.height, s.view, k, s.prep[k].value, s.log);
    }
    forall v | v in s.log.sent ensures SentBefore(c.me, s.height, s.view, prep', v) {
      assert SentBefore(c.me, s.height, s.view, s.prep, v);
    }
  }

  /** Nor does the own proposal, before it is stored. */
  lemma {:induction false} FilledOk(c: Config, s: State, current: Request, transactions: set<Tx>)
    requires StateOk(c, s) && s.prep[s.primary].None?
    ensures StateOk(c, s.(current := current, transactions := transactions, earlyPrep := s.prep, earlyCommits := s.commits))
  {
    assert Mention(s);
  }

  lemma {:induction false} StoreRequestOk(c: Config, s: State, msg: Payload)
    requires StateOk(c, s) && c.me != s.primary && s.prep[s.primary].None?
    requires msg.body.PrepareRequest? && msg.height == s.height && msg.view == s.view && msg.index == s.primary
    requires Votes(msg) <= s.log.heard && s.current == msg.body.req
    requires forall k :: 0 <= k < c.n && s.prep[k].Some? && s.prep[k].value.body.PrepareResponse? ==>
      s.prep[k].value.body.prepHash == IdOf(msg)
    ensures StateOk(c, s.(prep := s.prep[s.primary := Some(msg)], earlyPrep := s.prep, earlyCommits := s.commits))
  {
    assert Mention(s);
    assert Vote(msg.height, msg.view, msg.index, IdOf(msg)) in Votes(msg);
    var prep' := s.prep[s.primary := Some(msg)];
    forall k | 0 <= k < c.n && prep'[k].Some?
      ensures PrepOk(s.primary, c.me, s.height, s.view, k, prep'[k].value, s.log)
      ensures IdOf(prep'[k].value) == IdOf(msg)
    {
      if k != s.primary {
        assert prep'[k] == s.prep[k];
        assert PrepOk(s.primary, c.me, s.height, s.view, k, s.prep[k].value, s.log);
      }
    }
    forall v | v in s.log.sent ensures SentBefore(c.me, s.height, s.view, prep', v) {
      assert SentBefore(c.me, s.height, s.view, s.prep, v);
    }
  }

  lemma {:induction false} StoreResponseOk(c: Config, s: State, msg: Payload)
    requires StateOk(c, s)
    requires msg.body.PrepareResponse? && msg.height == s.height && msg.view == s.view
    requires 0 <= msg.index < c.n && msg.index != s.primary && s.prep[msg.index].None?
    requires Votes(msg) <= s.log.heard && OwnOk(msg, c.me, s.log)
    requires s.prep[s.primary].Some? ==> IdOf(msg) == IdOf(s.prep[s.primary].value)
    ensures StateOk(c, s.(prep := s.prep[msg.index := Some(msg)]))
  {
    assert Mention(s);
    var vote := Vote(msg.height, msg.view, msg.index, IdOf(msg));
    assert vote in Votes(msg);
    var prep' := s.prep[msg.index := Some(msg)];
    assert vote in s.log.sent ==> SentBefore(c.me, s.height, s.view, s.prep, vote);
    forall k | 0 <= k < c.n && prep'[k].Some?
      ensures PrepOk(s.primary, c.me, s.height, s.view, k, prep'[k].value, s.log)
    {
      if k != msg.index {
        assert PrepOk(s.primary, c.me, s.height, s.view, k, s.prep[k].value, s.log);
      }
    }
    forall v | v in s.log.sent ensures SentBefore(c.me, s.height, s.view, prep', v) {
      assert SentBefore(c.me, s.height, s.view, s.prep, v);
    }
  }

  /** The state after broadcasting the own preparation `p` for the first time in a view. */
  function Prepared(s: State, me: int, p: Payload): State
    requires 0 <= me < |s.prep|
  {
    s.(prep := s.prep[me := Some(p)], out := s.out + [p], log := s.log.(sent := s.log.sent + Votes(p)))
  }

  lemma {:induction false} PreparedOk(c: Config, s: State, p: Payload)
    requires StateOk(c, s) && 0 <= c.me && s.prep[c.me].None?
    requires p.height == s.height && p.view == s.view && p.index == c.me
    requires if c.me == s.primary then p.body == PrepareRequest(s.current) && s.earlyPrep == s.prep && s.earlyCommits == s.commits
      else s.prep[s.primary].Some? && p.body == PrepareResponse(IdOf(s.prep[s.primary].value))
    ensures StateOk(c, Prepared(s, c.me, p))
  {
    assert Mention(s);
    var s' := Prepared(s, c.me, p);
    var vote := Vote(p.height, p.view, p.index, IdOf(p));
    assert Votes(p) == {vote};
    forall v | v in s.log.sent
      ensures SentBefore(c.me, s.height, s.view, s'.prep, v) && (v.height, v.view) != (s.height, s.view)
    {
      assert SentBefore(c.me, s.height, s.view, s.prep, v);
    }
    forall k | 0 <= k < c.n && s'.prep[k].Some?
      ensures PrepOk(s.primary, c.me, s.height, s.view, k, s'.prep[k].value, s'.log)
    {
      if k != c.me {
        assert PrepOk(s.primary, c.me, s.height, s.view, k, s.prep[k].value, s.log);
      }
    }
    PreparedLogOk(c, s, vote);
    AnnouncedVote(c.me, s.out, p, s.log.sent, s.log.signed);
    OutMono(c.me, s.out, s.log, s'.log);
    OutAdd(c.me, s.out, p, s'.log);
  }

  lemma {:induction false} PreparedLogOk(c: Config, s: State, vote: Vote)
    requires StateOk(c, s) && vote.k == c.me
    requires forall v :: v in s.log.sent ==> (v.height, v.view) != (vote.height, vote.view)
    ensures LogOk(c, s.log.(sent := s.log.sent + {vote}))
  {
    assert Mention(s);
    LogMono(c, s.log, s.log.(sent := s.log.sent + {vote}));
  }

  /** The state after signing the header of the stored request on the preparations in hand. */
  function SignedState(s: State, me: int, p: Payload, e: Signed): State
    requires 0 <= me < |s.commits|
  {
    s.(commits := s.commits[me := Some(p)], out := s.out + [p], header := Some(e.header),
       log := s.log.(signed := s.log.signed + {e}))
  }

  /** The signature that the stored request and preparations call for. */
  function SignatureOf(s: State, prevHash: nat -> nat): Signed
    requires s.primary < |s.prep| && s.prep[s.primary].Some?
  {
    var id := IdOf(s.prep[s.primary].value);
    Signed(s.height, s.view, id, s.Block(prevHash), Filled(s.prep), Stale(s.prep, id))
  }

  lemma {:induction false} SignOk(c: Config, s: State, p: Payload, e: Signed)
    requires StateOk(c, s) && 0 <= c.me && s.commits[c.me].None? && s.prep[s.primary].Some?
    requires e == SignatureOf(s, c.prevHash) && |Filled(s.prep)| >= M(c.n)
    requires p == Payload(s.height, s.view, c.me, Commit(Signature(c.me, e.header)))
    ensures StateOk(c, SignedState(s, c.me, p, e))
  {
    assert Mention(s);
    var s' := SignedState(s, c.me, p, e);
    SignBacked(c, s, e);
    AnnouncedCommit(c.me, s.out, p, s.log.sent, s.log.signed, e);
    LogMono(c, s.log, s'.log);
    forall d | d in s.log.signed ensures d.height != s.height {
      assert Backed(d, c, s.log);
    }
    assert e.header in SignedHeaders(s'.log.signed) by { assert e in s'.log.signed; }
    OutMono(c.me, s.out, s.log, s'.log);
    OutAdd(c.me, s.out, p, s'.log);
    forall k | 0 <= k < c.n && s.prep[k].Some?
      ensures PrepOk(s.primary, c.me, s.height, s.view, k, s.prep[k].value, s'.log)
    {
      assert PrepOk(s.primary, c.me, s.height, s.view, k, s.prep[k].value, s.log);
    }
  }

  lemma {:induction false} SignBacked(c: Config, s: State, e: Signed)
    requires StateOk(c, s) && s.prep[s.primary].Some? && e == SignatureOf(s, c.prevHash) && |Filled(s.prep)| >= M(c.n)
    ensures Backed(e, c, s.log) && Backed(e, c, s.log.(signed := s.log.signed + {e}))
  {
    assert Mention(s);
    assert PrepOk(s.primary, c.me, s.height, s.view, s.primary, s.prep[s.primary].value, s.log);
    forall k | k in e.backers
      ensures k < c.n
      ensures k !in e.stale ==> Vote(s.height, s.view, k, e.id) in (if k == c.me then s.log.sent else s.log.heard)
    {
      assert PrepOk(s.primary, c.me, s.height, s.view, k, s.prep[k].value, s.log);
    }
  }

  /** All stored preparations are for this request. */
  ghost predicate AllFor(s: seq<Option<Payload>>, id: PrepId) {
    forall k :: 0 <= k < |s| && s[k].Some? ==> IdOf(s[k].value) == id
  }

  /**
   All preparations that a node counts are for its request if and only if it is a backup, or a primary that
   had no response to another request when it sent its own. The others are exactly those it had then.
   */
  lemma {:induction false} StaleExact(c: Config, s: State)
    requires StateOk(c, s) && s.prep[s.primary].Some?
    ensures var id := IdOf(s.prep[s.primary].value);
      && (AllFor(s.prep, id) <==> c.me != s.primary || AllFor(s.earlyPrep, id))
      && Stale(s.prep, id) == if c.me == s.primary then Stale(s.earlyPrep, id) else {}
  {
    assert Mention(s);
  }

  // ---- blocks ----

  /** The commits of the view, in the order of the validators. */
  function CommitsInView(s: seq<Option<Payload>>, view: nat): seq<Payload> {
    if s == [] then []
    else
      var rest, last := CommitsInView(s[..|s| - 1], view), s[|s| - 1];
      if last.Some? && last.value.view == view then rest + [last.value] else rest
  }

  lemma {:induction false} InViewCount(s: seq<Option<Payload>>, view: nat)
    ensures |CommitsInView(s, view)| == |InView(s, view)|
    ensures forall p :: p in CommitsInView(s, view) ==> exists k :: 0 <= k < |s| && s[k] == Some(p) && p.view == view
  {
    if s != [] {
      var last := |s| - 1;
      InViewCount(s[..last], view);
      assert InView(s, view) == InView(s[..last], view)
        + (if s[last].Some? && s[last].value.view == view then {last} else {});
      forall p | p in CommitsInView(s, view) ensures exists k :: 0 <= k < |s| && s[k] == Some(p) && p.view == view {
        if p in CommitsInView(s[..last], view) {
          var k :| 0 <= k < last && s[..last][k] == Some(p);
          assert s[k] == Some(p);
        } else {
          assert s[last] == Some(p);
        }
      }
    }
  }

  lemma {:induction false} InViewHas(s: seq<Option<Payload>>, view: nat, k: nat)
    requires k < |s| && s[k].Some? && s[k].value.view == view
    ensures s[k].value in CommitsInView(s, view)
  {
    if k < |s| - 1 {
      InViewHas(s[..|s| - 1], view, k);
    }
  }

  /** Once there are M of them, the later ones do not matter. */
  lemma {:induction false} InViewPrefix(s: seq<Option<Payload>>, i: nat, view: nat)
    requires i <= |s|
    ensures CommitsInView(s[..i], view) <= CommitsInView(s, view)
  {
    if i < |s| {
      InViewPrefix(s[..|s| - 1], i, view);
      assert s[..|s| - 1][..i] == s[..i];
    } else {
      assert s[..i] == s;
    }
  }

  /** They are of different validators, in order. */
  lemma {:induction false} InViewDistinct(s: seq<Option<Payload>>, view: nat)
    requires forall k :: 0 <= k < |s| && s[k].Some? ==> s[k].value.index == k
    ensures forall p :: p in CommitsInView(s, view) ==> 0 <= p.index < |s|
    ensures InOrder(CommitsInView(s, view))
  {
    if s != [] {
      InViewDistinct(s[..|s| - 1], view);
      var rest, last := CommitsInView(s[..|s| - 1], view), s[|s| - 1];
      if last.Some? && last.value.view == view {
        forall i | 0 <= i < |rest| ensures rest[i].index < |s| - 1 {
          assert rest[i] in rest;
        }
      }
    }
  }

  /** The block of this state, with the first M commits of the view as its witness. */
  function DecisionOf(s: State, prevHash: nat -> nat, m: nat): Decision {
    var w := CommitsInView(s.commits, s.view);
    Decision(s.view, s.Block(prevHash), if m <= |w| then w[..m] else w)
  }

  lemma {:induction false} DecideOk(c: Config, s: State, d: Decision)
    requires StateOk(c, s) && |InView(s.commits, s.view)| >= M(c.n) && d == DecisionOf(s, c.prevHash, M(c.n))
    ensures StateOk(c, s.(log := s.log.(decided := s.log.decided + [d])))
  {
    DecisionWitnessed(c, s, d);
    assert Mention(s);
    var log' := s.log.(decided := s.log.decided + [d]);
    LogMono(c, s.log, log');
    assert Witnessed(d, c, log');
    OutMono(c.me, s.out, s.log, log');
    forall k | 0 <= k < c.n && s.prep[k].Some? ensures PrepOk(s.primary, c.me, s.height, s.view, k, s.prep[k].value, log') {
      assert PrepOk(s.primary, c.me, s.height, s.view, k, s.prep[k].value, s.log);
    }
  }

  lemma {:induction false} DecisionWitnessed(c: Config, s: State, d: Decision)
    requires StateOk(c, s) && |InView(s.commits, s.view)| >= M(c.n) && d == DecisionOf(s, c.prevHash, M(c.n))
    ensures Witnessed(d, c, s.log)
  {
    assert Mention(s);
    InViewCount(s.commits, s.view);
    InViewDistinct(s.commits, s.view);
    var w := CommitsInView(s.commits, s.view);
    forall p | p in d.commits
      ensures p.body.Commit? && 0 <= p.index < c.n
      ensures if p.index == c.me then Genuine(p, SignedHeaders(s.log.signed)) else p in s.log.commits
    {
      assert p in w;
      var k :| 0 <= k < |s.commits| && s.commits[k] == Some(p);
    }
  }

  /**
   A block has a valid witness if and only if the commits in it that were stored before the request,
   without a check, are signatures of its header.
   */
  lemma {:induction false} CertifiedExactly(c: Config, s: State, d: Decision)
    requires StateOk(c, s) && s.prep[s.primary].Some? && d == DecisionOf(s, c.prevHash, M(c.n))
    ensures Certified(d) <==>
      forall p :: p in d.commits && 0 <= p.index < c.n && s.earlyCommits[p.index] == Some(p) ==> Verifies(p, d.header)
  {
    assert Mention(s);
    InViewCount(s.commits, s.view);
    forall p | p in d.commits && !(0 <= p.index < c.n && s.earlyCommits[p.index] == Some(p)) ensures Verifies(p, d.header) {
      assert p in CommitsInView(s.commits, s.view);
      var k :| 0 <= k < |s.commits| && s.commits[k] == Some(p) && p.view == s.view;
    }
  }

  /** In particular when every commit of the view that was stored before the request signs its header. */
  lemma {:induction false} EarlyGoodCertified(c: Config, s: State)
    requires StateOk(c, s) && s.prep[s.primary].Some?
    requires forall k :: 0 <= k < c.n && s.earlyCommits[k].Some? && s.earlyCommits[k].value.view == s.view ==>
      Verifies(s.earlyCommits[k].value, s.Block(c.prevHash))
    ensures Certified(DecisionOf(s, c.prevHash, M(c.n)))
  {
    var d := DecisionOf(s, c.prevHash, M(c.n));
    CertifiedExactly(c, s, d);
    InViewCount(s.commits, s.view);
    forall p | p in d.commits ensures p.view == s.view {
      assert p in CommitsInView(s.commits, s.view);
    }
  }

  /** No validator is recorded at a later height, so it counts as lost exactly when it was not heard from in this view or a later one. */
  lemma {:induction false} LostExactly(c: Config, s: State)
    requires StateOk(c, s)
    ensures Lost(s.lastSeen, s.height, s.view) == set k: nat | k < c.n &&
      !(s.lastSeen[k].Some? && s.lastSeen[k].value.height == s.height && s.lastSeen[k].value.view >= s.view)
  {
    assert Mention(s);
    assert Mention(s.met);
  }

  /**
   A validator counts as lost exactly when no message of this height, of this view or a later one, was handled
   that came from it.
   */
  lemma {:induction false} LostIsUnheard(c: Config, s: State, k: nat)
    requires StateOk(c, s) && k < c.n && k != c.me
    ensures k in Lost(s.lastSeen, s.height, s.view) <==>
      forall m :: m in s.met && m.k == k && m.height == s.height ==> m.view < s.view
  {
    assert Mention(s);
    assert Mention(s.met);
    assert RecordOk(k, s.lastSeen[k], s.met);
  }

  /** The record of a validator depends on its own messages only. */
  lemma {:induction false} RecordOfOwn(c: Config, s: State, s': State, k: nat)
    requires StateOk(c, s) && StateOk(c, s') && k < c.n && k != c.me
    requires forall m: Contact :: m.k == k ==> (m in s.met <==> m in s'.met)
    ensures s.lastSeen[k] == s'.lastSeen[k]
  {
    assert Mention(s);
    assert Mention(s');
    assert Mention(s.met);
    assert Mention(s'.met);
    assert RecordOk(k, s.lastSeen[k], s.met) && RecordOk(k, s'.lastSeen[k], s'.met);
  }

  /** Whatever a node has prepared or signed, it has told all others. */
  lemma {:induction false} SaidIsSent(c: Config, s: State)
    requires StateOk(c, s)
    ensures forall v :: v in s.log.sent ==> HasVote(s.out, v)
    ensures forall e :: e in s.log.signed ==> HasCommit(s.out, c.me, e.header)
  {
    assert Mention(s);
    AnnouncedIs(c.me, s.out, s.log.sent, s.log.signed);
  }

  lemma {:induction false} OutMono(me: int, out: seq<Payload>, log: Log, log': Log)
    requires OutOk(me, out, log) && Grows(log, log')
    ensures OutOk(me, out, log')
  {
    forall p | p in out ensures OwnOk(p, me, log') {
      OwnMono(p, me, log, log');
    }
  }

  lemma {:induction false} OwnMono(p: Payload, me: int, log: Log, log': Log)
    requires OwnOk(p, me, log) && Grows(log, log')
    ensures OwnOk(p, me, log')
  {
    assert SignedHeaders(log.signed) <= SignedHeaders(log'.signed);
  }

  lemma {:induction false} OutAdd(me: int, out: seq<Payload>, p: Payload, log: Log)
    requires OutOk(me, out, log) && OwnOk(p, me, log) && Votes(p) <= log.sent + log.heard
    ensures OutOk(me, out + [p], log)
  {
    forall q | q in out + [p] ensures OwnOk(q, me, log) && Votes(q) <= log.sent + log.heard {
      if q != p { assert q in out; }
    }
  }

  /** Sending a message that is on record changes nothing else. */
  lemma {:induction false} BroadcastOk(c: Config, s: State, p: Payload)
    requires StateOk(c, s) && OwnOk(p, c.me, s.log) && Votes(p) <= s.log.sent + s.log.heard
    ensures StateOk(c, s.(out := s.out + [p]))
  {
    assert Mention(s);
    AnnouncedMore(c.me, s.out, p, s.log.sent, s.log.signed);
    OutAdd(c.me, s.out, p, s.log);
  }

  lemma {:induction false} HeaderOk(c: Config, s: State, header: Header)
    requires StateOk(c, s) && s.prep[s.primary].Some?
    requires header == Header(s.height, c.prevHash(s.height), s.primary, s.current)
    ensures StateOk(c, s.(header := Some(header)))
  {
    assert Mention(s);
  }

  lemma {:induction false} StoreCommitOk(c: Config, s: State, msg: Payload)
    requires StateOk(c, s) && 0 <= msg.index < c.n
    requires msg.body.Commit? && msg.height == s.height && OwnOk(msg, c.me, s.log) && msg in s.log.commits
    requires s.prep[s.primary].Some? && msg.view == s.view ==> Verifies(msg, s.Block(c.prevHash))
    ensures StateOk(c, s.(commits := s.commits[msg.index := Some(msg)]))
  {
    assert Mention(s);
    assert msg in Commits(msg);
    if msg.index == c.me {
      var e :| e in s.log.signed && e.header == msg.body.sig.header;
    }
  }

  // ---- what the invariant says ----

  lemma {:induction false} HeaderFacts(c: Config, s: State)
    requires StateOk(c, s)
    ensures s.header.Some? ==> s.prep[s.primary].Some? && s.header.value == s.Block(c.prevHash)
    ensures s.prep[s.primary].Some? ==> s.prep[s.primary].value.body == PrepareRequest(s.current)
  {
    assert Mention(s);
  }

  lemma {:induction false} PrimaryFacts(c: Config, s: State)
    requires StateOk(c, s)
    ensures s.primary == c.primaryOf(s.height, s.view)
    ensures AllChangeViews(s.changeViews)
  {
    assert Mention(s);
  }

  /** A node that has signed still has the request. */
  lemma {:induction false} RequestKept(c: Config, s: State)
    requires StateOk(c, s)
    ensures 0 <= c.me && s.commits[c.me].Some? ==> s.prep[s.primary].Some?
  {
    assert Mention(s);
  }

  lemma {:induction false} PrepFacts(c: Config, s: State)
    requires StateOk(c, s)
    ensures forall k :: 0 <= k < c.n && s.prep[k].Some? ==>
      && s.prep[k].value.view == s.view
      && (if k == s.primary then s.prep[k].value.body.PrepareRequest? else s.prep[k].value.body.PrepareResponse?)
  {
    assert Mention(s);
    forall k | 0 <= k < c.n && s.prep[k].Some?
      ensures s.prep[k].value.view == s.view
      ensures if k == s.primary then s.prep[k].value.body.PrepareRequest? else s.prep[k].value.body.PrepareResponse?
    {
      assert PrepOk(s.primary, c.me, s.height, s.view, k, s.prep[k].value, s.log);
    }
  }

  lemma {:induction false} CommitFacts(c: Config, s: State)
    requires StateOk(c, s) && 0 <= c.me && s.commits[c.me].Some?
    ensures OwnOk(s.commits[c.me].value, c.me, s.log) && Votes(s.commits[c.me].value) == {}
    ensures exists e :: e in s.log.signed && e.height == s.height
  {
    assert Mention(s);
    var e :| e in s.log.signed && e.header == s.commits[c.me].value.body.sig.header;
  }

  /** A node that has signed at its height has its commit. */
  lemma {:induction false} SignedStay(c: Config, s: State)
    requires StateOk(c, s) && c.me >= 0
    requires exists e :: e in s.log.signed && e.height == s.height
    ensures s.commits[c.me].Some?
  {
    assert Mention(s);
  }

  /** While the request is not there this node has not answered it; and a request in its own name would be. */
  lemma {:induction false} RequestFacts(c: Config, s: State, msg: Payload)
    requires StateOk(c, s) && s.prep[s.primary].None? && OwnOk(msg, c.me, s.log)
    requires msg.body.PrepareRequest? && msg.height == s.height && msg.view == s.view && msg.index == c.primaryOf(s.height, s.view)
    ensures msg.index == s.primary && c.me != s.primary && s.header.None?
    ensures c.me >= 0 ==> s.commits[c.me].None? && s.prep[c.me].None?
  {
    assert Mention(s);
    var vote := Vote(msg.height, msg.view, msg.index, IdOf(msg));
    assert vote in Votes(msg);
    assert vote in s.log.sent ==> SentBefore(c.me, s.height, s.view, s.prep, vote);
  }

  /** What is stored may be sent on. */
  lemma {:induction false} RecoveryOk(c: Config, s: State, msg: Payload)
    requires StateOk(c, s) && msg.body.Recovery? && msg.body.request == s.prep[s.primary]
    requires forall p :: p in msg.body.changeViews ==> exists k :: 0 <= k < c.n && s.lastChangeViews[k] == Some(p)
    requires forall p :: p in msg.body.responses ==> exists k :: 0 <= k < c.n && s.prep[k] == Some(p)
    requires forall p :: p in msg.body.commits ==> exists k :: 0 <= k < c.n && s.commits[k] == Some(p)
    ensures OwnOk(msg, c.me, s.log) && Votes(msg) <= s.log.sent + s.log.heard
  {
    if s.prep[s.primary].Some? { StoredOk(c, s, s.primary, s.prep[s.primary].value); }
    forall p | p in msg.body.responses ensures OwnOk(p, c.me, s.log) && Votes(p) <= s.log.sent + s.log.heard {
      var k :| 0 <= k < c.n && s.prep[k] == Some(p);
      StoredOk(c, s, k, p);
    }
    forall p | p in msg.body.changeViews ensures OwnOk(p, c.me, s.log) && Votes(p) == {} {
      var k :| 0 <= k < c.n && s.lastChangeViews[k] == Some(p);
      StoredChangeViewOk(c, s, k, p);
    }
    forall p | p in msg.body.commits ensures OwnOk(p, c.me, s.log) && Votes(p) == {} {
      var k :| 0 <= k < c.n && s.commits[k] == Some(p);
      StoredCommitOk(c, s, k, p);
    }
    RecoveryParts(msg, c.me, s.log);
  }

  lemma {:induction false} StoredOk(c: Config, s: State, k: nat, p: Payload)
    requires StateOk(c, s) && k < c.n && s.prep[k] == Some(p)
    ensures OwnOk(p, c.me, s.log) && Votes(p) <= s.log.sent + s.log.heard
  {
    assert Mention(s);
    assert PrepOk(s.primary, c.me, s.height, s.view, k, p, s.log);
  }

  lemma {:induction false} StoredChangeViewOk(c: Config, s: State, k: nat, p: Payload)
    requires StateOk(c, s) && k < c.n && s.lastChangeViews[k] == Some(p)
    ensures OwnOk(p, c.me, s.log) && Votes(p) == {}
  {
    assert Mention(s);
  }

  lemma {:induction false} StoredCommitOk(c: Config, s: State, k: nat, p: Payload)
    requires StateOk(c, s) && k < c.n && s.commits[k] == Some(p)
    ensures OwnOk(p, c.me, s.log) && Votes(p) == {}
  {
    assert Mention(s);
  }

  predicate IsPart(p: Payload, msg: Payload) {
    && msg.body.Recovery?
    && (|| p in msg.body.changeViews || p in msg.body.responses || p in msg.body.commits
        || msg.body.request == Some(p))
  }

  lemma {:induction false} PartOk(p: Payload, msg: Payload, me: int, log: Log)
    requires IsPart(p, msg) && OwnOk(msg, me, log)
    ensures OwnOk(p, me, log) && Votes(p) <= Votes(msg) && Commits(p) <= Commits(msg) && p < msg
  {
  }

  /** A recovery message is on record when its parts are. */
  lemma {:induction false} RecoveryParts(msg: Payload, me: int, log: Log)
    requires msg.body.Recovery?
    requires msg.body.request.Some? ==> OwnOk(msg.body.request.value, me, log) && Votes(msg.body.request.value) <= log.sent + log.heard
    requires forall p :: p in msg.body.responses ==> OwnOk(p, me, log) && Votes(p) <= log.sent + log.heard
    requires forall p :: p in msg.body.changeViews ==> OwnOk(p, me, log) && Votes(p) == {}
    requires forall p :: p in msg.body.commits ==> OwnOk(p, me, log) && Votes(p) == {}
    ensures OwnOk(msg, me, log) && Votes(msg) <= log.sent + log.heard
  {
    forall v | v in Votes(msg) ensures v in log.sent + log.heard && (v.k == me ==> v in log.sent) {
    }
  }

  /** The hashes that are not in `have`, in order. */
  function Without(hashes: seq<Tx>, have: set<Tx>): seq<Tx> {
    if hashes == [] then []
    else
      var rest := Without(hashes[..|hashes| - 1], have);
      if hashes[|hashes| - 1] in have then rest else rest + [hashes[|hashes| - 1]]
  }

  lemma {:induction false} WithoutHas(hashes: seq<Tx>, have: set<Tx>)
    ensures forall h :: h in Without(hashes, have) <==> h in hashes && h !in have
  {
    if hashes != [] {
      WithoutHas(hashes[..|hashes| - 1], have);
      assert hashes == hashes[..|hashes| - 1] + [hashes[|hashes| - 1]];
    }
  }
}
