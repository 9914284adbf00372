/**
 A dBFT node: the handlers of pkg/dbft/dbft.go, check.go and send.go over the state of context.go, proved
 against the functions of DbftSteps. `log` records what the node prepared, signed, was told and decided;
 `Valid` is the invariant of DbftState.
 */
module Dbft {
  import opened Wrappers
  import opened DbftTypes
  import opened DbftState
  import opened DbftSteps

  class DBFT {
    const c: Config

    var height: nat
    var view: nat
    var primary: nat
    var current: Request
    var transactions: set<Tx>
    var missing: seq<Tx>
    var blockSent: bool
    var prep: seq<Option<Payload>>
    var commits: seq<Option<Payload>>
    var changeViews: seq<Option<Payload>>
    var lastChangeViews: seq<Option<Payload>>
    var lastSeen: seq<Option<Seen>>
    var header: Option<Header>
    var out: seq<Payload>
    ghost var earlyPrep: seq<Option<Payload>>
    ghost var earlyCommits: seq<Option<Payload>>
    ghost var met: set<Contact>
    ghost var log: Log

    /** The node may have forgotten what it said; its handlers are modelled up to this point. */
    var relapsed: bool

    ghost function Now(): State
      reads this
    {
      State(height, view, primary, current, transactions, missing, blockSent, prep, commits, changeViews,
        lastChangeViews, lastSeen, header, out, earlyPrep, earlyCommits, met, log)
    }

    ghost function Brief(): State
      reads this
    {
      Bare(Now())
    }

    ghost predicate Valid()
      reads this
    {
      !relapsed && StateOk(c, Now())
    }

    /** What every handler leaves: the invariant unless the node relapses, and a sound log in any case. */
    ghost predicate Sound()
      reads this
    {
      Kept(c, log) && (relapsed || StateOk(c, Now()))
    }

    // ---- pkg/dbft/context.go ----

    predicate WatchOnly() {
      c.me < 0
    }

    predicate IsPrimary()
      reads this
    {
      c.me == primary
    }

    predicate IsBackup()
      reads this
    {
      c.me >= 0 && !IsPrimary()
    }

    predicate RequestSentOrReceived()
      requires primary < |prep|
      reads this
    {
      prep[primary].Some?
    }

    predicate ResponseSent()
      requires c.me < |prep|
      reads this
    {
      !WatchOnly() && prep[c.me].Some?
    }

    predicate CommitSent()
      requires c.me < |commits|
      reads this
    {
      !WatchOnly() && commits[c.me].Some?
    }

    predicate IsViewChanging()
      requires c.me < |changeViews|
      reads this
    {
      && !WatchOnly() && changeViews[c.me].Some?
      && changeViews[c.me].value.body.ChangeView? && changeViews[c.me].value.body.newView > view
    }

    predicate HasAllTransactions()
      reads this
    {
      |current.txHashes| == |transactions|
    }

    method MoreThanFNodesCommittedOrLost() returns (more: bool)
      requires c.n > 0
      ensures more == MoreThanF(c, Now())
    {
      var nc := CountCommitted();
      var nf := CountFailed();
      more := nc + nf > F(c.n);
    }

    method CountCommitted() returns (count: nat)
      ensures count == |Filled(commits)|
    {
      count := 0;
      ghost var s: set<nat> := {};
      var i := 0;
      while i < |commits|
        invariant 0 <= i <= |commits|
        invariant s == (set k: nat | k < i && commits[k].Some?) && count == |s|
      {
        if commits[i].Some? {
          count := count + 1;
          s := s + {i};
        }
        i := i + 1;
      }
      assert s == Filled(commits);
    }

    method CountFailed() returns (count: nat)
      ensures count == |Lost(lastSeen, height, view)|
    {
      count := 0;
      ghost var s: set<nat> := {};
      var i := 0;
      while i < |lastSeen|
        invariant 0 <= i <= |lastSeen|
        invariant s == (set k: nat | k < i && (lastSeen[k].None? || lastSeen[k].value.height < height || lastSeen[k].value.view < view))
        invariant count == |s|
      {
        if lastSeen[i].None? || lastSeen[i].value.height < height || lastSeen[i].value.view < view {
          count := count + 1;
          s := s + {i};
        }
        i := i + 1;
      }
      assert s == Lost(lastSeen, height, view);
    }

    /** Validator `me` of `n`, or a watching node, that has not started yet. */
    constructor (n: nat, me: int, prevHash: nat -> nat)
      requires n > 0 && -1 <= me < n
      ensures Valid() && c == Config(n, me, prevHash, Schedule(n))
      ensures height == 0 && current == Request(0, 0, 0, []) && lastSeen == seq(n, i => None) && met == {} && out == [] && log == EmptyLog
    {
      c := Config(n, me, prevHash, Schedule(n));
      height, view, primary := 0, 0, GetPrimaryIndex(n, 0, 0);
      current, transactions, missing, blockSent := Request(0, 0, 0, []), {}, [], false;
      prep, commits, changeViews := NoPayloads(n), NoPayloads(n), NoPayloads(n);
      lastChangeViews, earlyPrep, earlyCommits := NoPayloads(n), NoPayloads(n), NoPayloads(n);
      lastSeen := seq(n, i => None);
      header, out, relapsed, met, log := None, [], false, {}, EmptyLog;
      new;
      InitialOk(c, Now());
    }

    /**
     InitializeConsensus and reset: view 0 starts the height after the chain's last block, which never
     falls behind; a later view stays at this height. The invariant is lost exactly by a node that has
     spoken at this height and starts it anew, or that has signed and enters a later view.
     */
    method InitializeConsensus(view': nat, chain: int)
      requires Valid() && view' < 256
      requires if view' > 0 then view < view' else chain + 1 >= height
      modifies this
      ensures Brief() == Renewed(c, old(Brief()), if view' == 0 then chain + 1 else old(height), view')
      ensures height == (if view' == 0 then chain + 1 else old(height)) && view == view' && primary == c.primaryOf(height, view)
      ensures prep == commits == changeViews == NoPayloads(c.n) && transactions == {} && missing == [] && current.txHashes == []
      ensures header == None && !blockSent && log == old(log) && out == old(out)
      ensures StateOk(c, Now()) <==>
        || height > old(height)
        || (if view' > 0 then !old(CommitSent()) else !Spoke(log, old(height)))
      ensures relapsed <==> !WatchOnly() && (if view' > 0 then old(CommitSent()) else height == old(height))
      ensures Sound()
    {
      hide NoPayloads, Spoke, Kept, AllBelow;
      ghost var s := Now();
      var height' := if view' == 0 then chain + 1 else height;
      relapsed := !WatchOnly() && (if view' > 0 then CommitSent() else height' == height);
      BeginView(height', view');
      RenewedCleared(c, s, Now(), height', view');
    }

    method BeginView(height': nat, view': nat)
      requires StateOk(c, Now())
      modifies this
      ensures Brief() == Renewed(c, old(Brief()), height', view') && AllBelow(lastChangeViews, view')
      ensures |lastChangeViews| == c.n && earlyPrep == earlyCommits == NoPayloads(c.n)
      ensures header == None && relapsed == old(relapsed)
    {
      hide NoPayloads, Skipped;
      PrimaryFacts(c, Now());
      BelowAfter(changeViews, view', c.n);
      KeepChangeViews(view');
      Reset(height', view');
    }

    /** The change views for the views that were skipped are kept for recovery messages. */
    method KeepChangeViews(view': nat)
      requires |changeViews| == |lastChangeViews| == c.n
      modifies this`lastChangeViews
      ensures lastChangeViews == if view' == 0 then NoPayloads(c.n) else Skipped(changeViews, view')
    {
      if view' == 0 {
        lastChangeViews := NoPayloads(c.n);
        return;
      }
      var i := 0;
      while i < c.n
        modifies this`lastChangeViews
        invariant 0 <= i <= c.n && |lastChangeViews| == c.n
        invariant lastChangeViews[..i] == Skipped(changeViews, view')[..i]
      {
        var m := changeViews[i];
        lastChangeViews := lastChangeViews[i :=
          if m.Some? && m.value.body.ChangeView? && m.value.body.newView < view' then m else None];
        i := i + 1;
      }
      assert lastChangeViews[..i] == lastChangeViews;
      assert Skipped(changeViews, view')[..i] == Skipped(changeViews, view');
    }

    /** Forgets everything that was stored for the last view. */
    method Reset(height': nat, view': nat)
      requires c.me < |lastSeen|
      modifies this`height, this`view, this`primary, this`current, this`prep, this`commits, this`changeViews
      modifies this`lastSeen, this`header, this`blockSent, this`transactions, this`missing, this`earlyPrep, this`earlyCommits
      ensures height == height' && view == view' && primary == c.primaryOf(height', view')
      ensures current == old(current).(txHashes := [])
      ensures prep == commits == changeViews == earlyPrep == earlyCommits == NoPayloads(c.n)
      ensures lastSeen == if c.me >= 0 then old(lastSeen)[c.me := Some(Seen(height', view'))] else old(lastSeen)
      ensures header == None && !blockSent && transactions == {} && missing == []
    {
      hide NoPayloads;
      header, blockSent := None, false;
      ClearPayloads();
      transactions, current, missing := {}, current.(txHashes := []), [];
      height, view, primary := height', view', c.primaryOf(height', view');
      if c.me >= 0 {
        lastSeen := lastSeen[c.me := Some(Seen(height', view'))];
      }
    }

    method ClearPayloads()
      modifies this`prep, this`commits, this`changeViews, this`earlyPrep, this`earlyCommits
      ensures prep == commits == changeViews == earlyPrep == earlyCommits == NoPayloads(c.n)
    {
      changeViews, commits, prep := NoPayloads(c.n), NoPayloads(c.n), NoPayloads(c.n);
      earlyPrep, earlyCommits := NoPayloads(c.n), NoPayloads(c.n);
    }

    method MakeHeader() returns (h: Option<Header>)
      requires Valid()
      modifies this`header
      ensures Valid() && h == header
      ensures h == if prep[primary].Some? then Some(Now().Block(c.prevHash)) else None
    {
      HeaderFacts(c, Now());
      if header == None {
        if !RequestSentOrReceived() {
          return None;
        }
        ghost var s := Now();
        header := Some(Header(height, c.prevHash(height), primary, current));
        HeaderOk(c, s, header.value);
      }
      h := header;
    }

    // ---- pkg/dbft/send.go ----

    method Broadcast(p: Payload)
      requires Valid() && OwnOk(p, c.me, log) && Votes(p) <= log.sent + log.heard
      modifies this`out
      ensures Valid() && out == old(out) + [p]
    {
      BroadcastOk(c, Now(), p);
      out := out + [p];
    }

    /** The proposal of this node: the transactions of its pool, later than the last one. */
    method Fill(env: Env)
      requires Valid() && prep[primary].None?
      modifies this`current, this`transactions, this`earlyPrep, this`earlyCommits
      ensures Valid() && current == Proposal(old(current), env) && earlyPrep == prep && earlyCommits == commits
      ensures current.timestamp >= env.now && current.timestamp >= old(current.timestamp) + env.increment
      ensures current.timestamp == env.now || current.timestamp == old(current.timestamp) + env.increment
      ensures current.nonce == env.nonce && current.nextConsensus == env.nextConsensus && current.txHashes == env.pool
      ensures transactions == old(transactions) + set h | h in env.pool
    {
      ghost var s := Now();
      var timestamp := if env.now > current.timestamp + env.increment then env.now else current.timestamp + env.increment;
      current := Request(timestamp, env.nonce, env.nextConsensus, env.pool);
      transactions := transactions + set h | h in env.pool;
      earlyPrep, earlyCommits := prep, commits;
      FilledOk(c, s, current, transactions);
    }

    /** Stores and sends the own preparation; responses that a primary has stored stay, whatever they are for. */
    method Prepare(msg: Payload)
      requires Valid() && !WatchOnly() && prep[c.me].None?
      requires msg.height == height && msg.view == view && msg.index == c.me
      requires IsPrimary() || prep[primary].Some?
      requires msg.body == if IsPrimary() then PrepareRequest(current) else PrepareResponse(IdOf(prep[primary].value))
      requires IsPrimary() ==> earlyPrep == prep && earlyCommits == commits
      modifies this`prep, this`out, this`log
      ensures Valid() && Brief() == WithOwn(c, old(Brief()), msg)
    {
      hide Kept, WithOwn, Votes;
      ghost var s := Now();
      PreparedOk(c, s, msg);
      PreparedIs(c, s, msg);
      prep, out := prep[c.me := Some(msg)], out + [msg];
      log := log.(sent := log.sent + Votes(msg));
      assert Now() == Prepared(s, c.me, msg);
    }

    method SendPrepareRequest(env: Env)
      requires Valid() && IsPrimary() && !RequestSentOrReceived()
      modifies this
      ensures Brief() == AfterProposal(c, old(Brief()), env)
      ensures relapsed <==> Relapses(c, old(Now()), Now())
      ensures Sound() && (relapsed ==> log.decided != old(log.decided))
      ensures Proposed(old(Now()), env)
    {
      RequestKept(c, Now());
      MakePrepareRequest(env);
      CheckPrepare(env);
    }

    method MakePrepareRequest(env: Env)
      requires Valid() && IsPrimary() && !RequestSentOrReceived()
      modifies this
      ensures Valid() && Brief() == Proposing(c, old(Brief()), env) && Proposed(old(Now()), env)
    {
      Fill(env);
      var msg := Payload(height, view, c.me, PrepareRequest(current));
      Prepare(msg);
      assert Vote(height, view, c.me, IdOf(msg)) in Votes(msg);
    }

    /** The node has prepared the proposal that the surroundings call for. */
    ghost predicate Proposed(before: State, env: Env)
      reads this
    {
      Vote(before.height, before.view, c.me, PrepId(before.height, before.view, c.me, Proposal(before.current, env))) in log.sent
    }

    method SendPrepareResponse()
      requires Valid() && IsBackup() && RequestSentOrReceived() && !ResponseSent()
      modifies this`prep, this`out, this`log
      ensures Valid() && Brief() == WithOwn(c, old(Brief()), old(OwnResponse(c, Now())))
    {
      Prepare(Payload(height, view, c.me, PrepareResponse(IdOf(prep[primary].value))));
    }

    method MakeChangeView() returns (msg: Payload)
      requires Valid() && !WatchOnly()
      modifies this`changeViews
      ensures Valid() && msg == NextViewOf(c, Now()) && changeViews == old(Asked(c, Now()))
    {
      msg := Payload(height, view, c.me, ChangeView(NextView(view)));
      ChangeViewOk(c, Now(), c.me, msg, out);
      changeViews := changeViews[c.me := Some(msg)];
    }

    /** Enters the next view if and only if it `Moves`; this loses a commit that was sent. */
    method SendChangeView(env: Env)
      requires Valid()
      modifies this
      ensures Brief() == AfterRefusal(c, old(Brief()), env)
      ensures out == if WatchOnly() then old(out) else old(out) + [Payload(old(height), old(view), c.me,
        if old(MoreThanF(c, Now())) then RecoveryRequest else ChangeView(NextView(old(view))))]
      ensures relapsed <==> old(Moves(c, Now()) && CommitSent())
      ensures Sound()
    {
      hide Lost, Filled, Asking, Kept, NoPayloads, Refilled, StateOk, Skipped;
      if WatchOnly() {
        return;
      }
      var newView := NextView(view);
      var skip := MoreThanFNodesCommittedOrLost();
      if skip {
        SendRecoveryRequest(env);
        return;
      }
      AskForView(newView);
    }

    method AskForView(newView: nat)
      requires Valid() && !WatchOnly() && newView == NextView(view)
      modifies this
      ensures var s := Calling(c, old(Brief()));
        Brief() == if old(view) < 255 && |Asking(s.changeViews, newView)| >= M(c.n) then Renewed(c, s, s.height, newView) else s
      ensures relapsed <==> view != old(view) && old(CommitSent())
      ensures Sound()
    {
      var msg := MakeChangeView();
      Broadcast(msg);
      CheckChangeView(newView);
    }

    method MakeCommit() returns (msg: Payload)
      requires Valid() && !WatchOnly() && prep[primary].Some?
      modifies this`header
      ensures Valid()
      ensures if CommitSent() then msg == commits[c.me].value && header == old(header)
        else header == Some(Now().Block(c.prevHash)) && msg == OwnCommit(c, Now())
    {
      if commits[c.me].Some? {
        return commits[c.me].value;
      }
      var h := MakeHeader();
      msg := Payload(height, view, c.me, Commit(Signature(c.me, h.value)));
    }

    /** Signs the header of the stored request, once per height. */
    method SendCommit()
      requires Valid() && !WatchOnly() && prep[primary].Some? && |Filled(prep)| >= M(c.n)
      modifies this
      ensures Valid() && Brief() == Signing(c, old(Brief())) && CommitSent()
    {
      var msg := MakeCommit();
      if CommitSent() {
        CommitFacts(c, Now());
        assert commits[c.me := Some(msg)] == commits;
        commits := commits[c.me := Some(msg)];
        Broadcast(msg);
      } else {
        StoreOwnCommit(msg);
      }
    }

    method StoreOwnCommit(msg: Payload)
      requires Valid() && !WatchOnly() && prep[primary].Some? && |Filled(prep)| >= M(c.n) && !CommitSent()
      requires header == Some(Now().Block(c.prevHash)) && msg == OwnCommit(c, Now())
      modifies this`commits, this`out, this`log
      ensures Valid() && Brief() == Signing(c, old(Brief())) && CommitSent()
    {
      hide Stale, Kept, Filled, Signing;
      ghost var s := Now();
      ghost var e := SignatureOf(s, c.prevHash);
      SignOk(c, s, msg, e);
      SignedIs(c, s, header);
      log := log.(signed := log.signed + {e});
      commits, out := commits[c.me := Some(msg)], out + [msg];
      assert Now() == SignedState(s, c.me, msg, e);
    }

    // ---- pkg/dbft/check.go ----

    /** Signs if and only if all transactions, the request and M preparations are there. */
    method CheckPrepare(env: Env)
      requires Valid() && !WatchOnly()
      modifies this
      ensures Brief() == AfterPreparations(c, old(Brief()), env)
      ensures relapsed <==> Relapses(c, old(Now()), Now())
      ensures Sound() && (relapsed ==> log.decided != old(log.decided))
      ensures !old(CanSign(c, Now())) ==> unchanged(this)
    {
      if !HasAllTransactions() {
        return;
      }
      var count, hasRequest := CountPreparations();
      if hasRequest && count >= M(c.n) {
        SendCommit();
        CheckCommit(env);
      }
    }

    method CountPreparations() returns (count: nat, hasRequest: bool)
      requires Valid()
      ensures count == |Filled(prep)| && hasRequest == prep[primary].Some?
    {
      PrepFacts(c, Now());
      count, hasRequest := 0, false;
      ghost var s: set<nat> := {};
      var i := 0;
      while i < |prep|
        invariant 0 <= i <= |prep|
        invariant s == (set k: nat | k < i && prep[k].Some?) && count == |s|
        invariant hasRequest == (primary < i && prep[primary].Some?)
      {
        if prep[i].Some? {
          if prep[i].value.view == view {
            count := count + 1;
            s := s + {i};
          }
          if prep[i].value.body.PrepareRequest? {
            hasRequest := true;
          }
        }
        i := i + 1;
      }
      assert s == Filled(prep);
    }

    /**
     Hands the block over if and only if M commits of this view are there. The next height is started
     when the chain takes it, which it does only with a valid witness; otherwise this height is started
     anew.
     */
    method CheckCommit(env: Env)
      requires Valid() && prep[primary].Some?
      modifies this
      ensures Brief() == AfterCommits(c, old(Brief()), env)
      ensures relapsed <==> Relapses(c, old(Now()), Now())
      ensures Sound() && (relapsed ==> log.decided != old(log.decided))
      ensures !old(Decides(c, Now())) ==> unchanged(this)
      ensures old(Decides(c, Now())) ==>
        log == old(log).(decided := old(log.decided) + [old(DecisionNow(c, Now()))])
    {
      hide Kept, CommitsInView, Certified, StateOk, NoPayloads, Skipped;
      if !HasAllTransactions() {
        return;
      }
      var count := CountInView();
      if count < M(c.n) {
        return;
      }
      blockSent := true;
      TransactionsOk(c, old(Now()), transactions, missing, true);
      var chain := ProcessBlock(env);
      InitializeConsensus(0, chain);
    }

    method CountInView() returns (count: nat)
      ensures count == |InView(commits, view)|
    {
      count := 0;
      ghost var s: set<nat> := {};
      var i := 0;
      while i < |commits|
        invariant 0 <= i <= |commits|
        invariant s == (set k: nat | k < i && commits[k].Some? && commits[k].value.view == view) && count == |s|
      {
        if commits[i].Some? && commits[i].value.view == view {
          count := count + 1;
          s := s + {i};
        }
        i := i + 1;
      }
      assert s == InView(commits, view);
    }

    /** Gives the block its witness and hands it to the chain; tells the height of the chain afterwards. */
    method ProcessBlock(env: Env) returns (chain: int)
      requires Valid() && prep[primary].Some? && |InView(commits, view)| >= M(c.n)
      modifies this`header, this`log
      ensures Valid() && log == old(log).(decided := old(log.decided) + [old(DecisionNow(c, Now()))])
      ensures chain == ChainAfter(old(DecisionNow(c, Now())), env)
    {
      var h := MakeHeader();
      var witnesses := GetBlockWitness();
      var d := Decision(view, h.value, witnesses);
      DecideOk(c, Now(), d);
      log := log.(decided := log.decided + [d]);
      var height' := d.header.height;
      chain := if env.chain >= height' then env.chain else if Joins(d, env) then height' else height' - 1;
    }

    /** The first M commits of this view. */
    method GetBlockWitness() returns (ps: seq<Payload>)
      requires c.n > 0 && |InView(commits, view)| >= M(c.n)
      ensures |CommitsInView(commits, view)| == |InView(commits, view)| && ps == CommitsInView(commits, view)[..M(c.n)]
    {
      InViewCount(commits, view);
      ps := [];
      var i := 0;
      while i < |commits| && |ps| < M(c.n)
        invariant 0 <= i <= |commits| && |ps| <= M(c.n)
        invariant ps == CommitsInView(commits[..i], view)
      {
        assert commits[..i + 1][..i] == commits[..i];
        if commits[i].Some? && commits[i].value.view == view {
          ps := ps + [commits[i].value];
        }
        i := i + 1;
      }
      assert commits[..|commits|] == commits;
      InViewPrefix(commits, i, view);
    }

    /** Enters a later view if and only if M validators ask for it or for one beyond. */
    method CheckChangeView(v: nat)
      requires Valid() && v < 256
      modifies this
      ensures Brief() == AfterAsking(c, old(Brief()), v)
      ensures relapsed <==> view != old(view) && old(CommitSent())
      ensures Sound()
      ensures !(old(view) < v && old(|Asking(changeViews, v)|) >= M(c.n)) ==> unchanged(this)
    {
      if view >= v {
        return;
      }
      var count := CountAsking(v);
      if count < M(c.n) {
        return;
      }
      if !WatchOnly() {
        var own := changeViews[c.me];
        if own.Some? && own.value.body.ChangeView? && own.value.body.newView < v {
          var msg := MakeChangeView();
          Broadcast(msg);
        }
      }
      InitializeConsensus(v, 0);
    }

    method CountAsking(v: nat) returns (count: nat)
      ensures count == |Asking(changeViews, v)|
    {
      count := 0;
      ghost var s: set<nat> := {};
      var i := 0;
      while i < |changeViews|
        invariant 0 <= i <= |changeViews|
        invariant count == |s|
        invariant s == set k: nat | k < i && changeViews[k].Some? && changeViews[k].value.body.ChangeView? && changeViews[k].value.body.newView >= v
      {
        var m := changeViews[i];
        if m.Some? && m.value.body.ChangeView? && m.value.body.newView >= v {
          count := count + 1;
          s := s + {i};
        }
        i := i + 1;
      }
      assert s == Asking(changeViews, v);
    }

    // ---- recovery ----

    /** Re-requests the transactions of the proposal that are not in the pool. */
    method ProcessMissingTx(env: Env)
      modifies this`transactions, this`missing
      ensures Now() == Refilled(old(Now()), env)
      ensures transactions == old(transactions) + set h | h in current.txHashes && h in env.known
      ensures forall h :: h in current.txHashes && h !in transactions ==> h in missing
      ensures (exists h :: h in current.txHashes && h !in transactions) ==> forall h :: h in missing ==> h in current.txHashes && h !in transactions
      ensures (forall h :: h in current.txHashes ==> h in transactions) ==> missing == old(missing)
      ensures Now() == old(Now()).(transactions := transactions, missing := missing)
    {
      ghost var have := transactions;
      var hashes, unknown := current.txHashes, [];
      var i := 0;
      while i < |hashes|
        modifies this`transactions
        invariant 0 <= i <= |hashes|
        invariant transactions == have + set h | h in hashes[..i] && h in env.known
        invariant unknown == Without(hashes[..i], have + env.known)
      {
        var h := hashes[i];
        assert hashes[..i + 1] == hashes[..i] + [h];
        if h !in transactions {
          if h in env.known {
            transactions := transactions + {h};
          } else {
            unknown := unknown + [h];
          }
        }
        i := i + 1;
      }
      assert hashes[..i] == hashes;
      WithoutHas(hashes, have + env.known);
      if unknown != [] {
        assert unknown[0] in unknown;
        missing := unknown;
      }
    }

    method SendRecoveryRequest(env: Env)
      requires Valid()
      modifies this`transactions, this`missing, this`out
      ensures Valid()
      ensures Brief() == (if old(RequestSentOrReceived() && !HasAllTransactions()) then Refilled(old(Brief()), env) else old(Brief()))
        .(out := old(out) + [Payload(height, view, c.me, RecoveryRequest)])
    {
      hide Refilled;
      if RequestSentOrReceived() && !HasAllTransactions() {
        ghost var s := Now();
        RefilledIs(s, env);
        ProcessMissingTx(env);
        TransactionsOk(c, s, transactions, missing, blockSent);
      }
      Broadcast(Payload(height, view, c.me, RecoveryRequest));
    }

    method MakeRecoveryMessage() returns (msg: Payload)
      requires Valid()
      ensures msg == RecoveryOf(c, Now()) && TellsAll(msg)
      ensures OwnOk(msg, c.me, log) && Votes(msg) <= log.sent + log.heard
    {
      hide OwnOk, Votes;
      var cvs := Collect(lastChangeViews);
      var cs := [];
      if CommitSent() {
        cs := Collect(commits);
      }
      var rest := Collect(prep[primary := None]);
      msg := Payload(height, view, c.me, Recovery(cvs, prep[primary], rest, cs));
      OthersStored(prep, primary);
      RecoveryOk(c, Now(), msg);
    }

    method SendRecoveryMessage()
      requires Valid()
      modifies this`out
      ensures Valid() && Brief() == Recovering(c, old(Brief()))
      ensures |out| == |old(out)| + 1 && out[..|old(out)|] == old(out) && TellsAll(out[|old(out)|])
    {
      hide OwnOk, Votes, Contents;
      ghost var was := out;
      var msg := MakeRecoveryMessage();
      Broadcast(msg);
      assert TellsAll(msg);
    }

    /** Everything that another validator could be missing. */
    ghost predicate TellsAll(msg: Payload)
      reads this
    {
      && msg.height == height && msg.view == view && msg.index == c.me && msg.body.Recovery?
      && primary < |prep| && msg.body.request == prep[primary]
      && (forall p :: p in msg.body.responses <==> exists k :: 0 <= k < |prep| && k != primary && prep[k] == Some(p))
      && (forall p :: p in msg.body.changeViews <==> Some(p) in lastChangeViews)
      && (forall p :: p in msg.body.commits <==> c.me < |commits| && CommitSent() && Some(p) in commits)
    }

    method Collect(s: seq<Option<Payload>>) returns (ps: seq<Payload>)
      ensures ps == Contents(s)
    {
      ps := [];
      var i := 0;
      while i < |s|
        invariant 0 <= i <= |s| && ps == Contents(s[..i])
      {
        assert s[..i + 1][..i] == s[..i];
        if s[i].Some? {
          ps := ps + [s[i].value];
        }
        i := i + 1;
      }
      assert s[..i] == s;
    }

    method OnRecoveryRequest(msg: Payload)
      requires Valid() && 0 <= msg.index < c.n
      modifies this`out
      ensures Valid() && Brief() == AfterCallForRecovery(c, old(Brief()), msg)
    {
      hide Answers;
      if !CommitSent() {
        var shouldSend := IsNext(msg.index);
        if !shouldSend {
          return;
        }
      }
      SendRecoveryMessage();
    }

    /** This validator is one of the F after the sender. */
    method IsNext(sender: nat) returns (next: bool)
      requires 0 < c.n && c.me < c.n
      ensures next <==> Answers(c, sender)
    {
      var i := 1;
      while i <= F(c.n)
        invariant 1 <= i <= F(c.n) + 1
        invariant forall j: nat :: 1 <= j < i ==> Successor(c.n, sender, j) != c.me
      {
        SuccessorExactly(c.n, sender, i, c.me);
        if Successor(c.n, sender, i) == c.me {
          return true;
        }
        i := i + 1;
      }
      NoneAnswers(c, sender);
      next := false;
    }

    // ---- pkg/dbft/dbft.go ----

    /** Checks the proposal, and asks for the next view when it is not accepted. */
    method CreateAndCheckBlock(env: Env) returns (ok: bool)
      requires Valid() && prep[primary].Some? && HasAllTransactions()
      modifies this
      ensures ok == old(Accepts(c, Now(), env)) && Brief() == AfterCheck(c, old(Brief()), env)
      ensures relapsed <==> !ok && old(Moves(c, Now()) && CommitSent())
      ensures Sound()
    {
      hide AfterRefusal, Renewed;
      if current.nextConsensus == env.nextConsensus {
        ok := CheckBlock(env);
      } else {
        ok := false;
      }
      if !ok {
        SendChangeView(env);
      }
    }

    method CheckBlock(env: Env) returns (ok: bool)
      requires Valid() && prep[primary].Some?
      modifies this`header, this`blockSent
      ensures Valid() && blockSent && ok == env.acceptsBlock(Now().Block(c.prevHash))
    {
      var h := MakeHeader();
      TransactionsOk(c, Now(), transactions, missing, true);
      blockSent := true;
      ok := env.acceptsBlock(h.value);
    }

    /**
     Stores the first request of the primary of this view that verifies. When all its transactions are at
     hand and it is accepted a validator prepares it, and signs as soon as it can.
     */
    method OnPrepareRequest(msg: Payload, env: Env)
      requires Valid() && msg.body.PrepareRequest? && msg.height == height && 0 <= msg.index < c.n
      requires OwnOk(msg, c.me, log) && Votes(msg) <= log.heard
      modifies this
      ensures Brief() == AfterRequest(c, old(Brief()), msg, env)
      ensures relapsed <==> Relapses(c, old(Now()), Now())
      ensures Sound() && (relapsed ==> log.decided != old(log.decided))
      ensures old(prep[primary]).Some? ==> unchanged(this)
    {
      hide AfterRefusal, AfterFilling, Undone;
      PrimaryFacts(c, Now());
      if RequestSentOrReceived() || view != msg.view || msg.index != c.primaryOf(height, view) {
        return;
      }
      RequestFacts(c, Now(), msg);
      if !env.verifiesRequest(msg) {
        SendChangeView(env);
        return;
      }
      StoreRequest(msg, env);
      Answer(env);
    }

    /** Answers the stored request, if it can be checked and is accepted. */
    method Answer(env: Env)
      requires Valid() && prep[primary].Some? && !IsPrimary() && !ResponseSent()
      modifies this
      ensures Brief() == AfterFilling(c, old(Brief()), env)
      ensures relapsed <==> Relapses(c, old(Now()), Now())
      ensures Sound()
      ensures !old(CommitSent()) ==> (relapsed ==> log.decided != old(log.decided))
      ensures missing == old(missing) || missing == []
    {
      hide AfterPreparations, StateOk, Refilled, Lost, Filled, Asking;
      if !HasAllTransactions() {
        return;
      }
      var ok := CreateAndCheckBlock(env);
      if !ok || WatchOnly() {
        return;
      }
      RespondAndCheck(env);
    }

    method RespondAndCheck(env: Env)
      requires Valid() && IsBackup() && RequestSentOrReceived() && !ResponseSent()
      modifies this
      ensures Brief() == AfterAnswer(c, old(Brief()), env)
      ensures relapsed <==> Relapses(c, old(Now()), Now())
      ensures Sound() && (relapsed ==> log.decided != old(log.decided))
      ensures missing == old(missing) || missing == []
    {
      SendPrepareResponse();
      CheckPrepare(env);
    }

    method StoreRequest(msg: Payload, env: Env)
      requires Valid() && prep[primary].None? && !IsPrimary() && !ResponseSent()
      requires msg.body.PrepareRequest? && msg.height == height && msg.view == view && msg.index == primary
      requires Votes(msg) <= log.heard
      modifies this
      ensures Valid() && Brief() == WithRequest(old(Brief()), msg, env) && !ResponseSent()
      ensures earlyCommits == commits && header.None?
    {
      hide Without, Kept, Refilled, WithRequest;
      ghost var s := Now();
      ReceivingOk(c, s, msg);
      TakeProposal(msg, env);
      UpdateExistingPayloads(msg);
      PutRequest(msg);
      RequestStored(s, Now(), msg, env);
    }

    method PutRequest(msg: Payload)
      requires Valid() && prep[primary].None? && !IsPrimary()
      requires msg.body.PrepareRequest? && current == msg.body.req && msg.height == height && msg.view == view && msg.index == primary
      requires Votes(msg) <= log.heard
      requires forall k :: 0 <= k < c.n && prep[k].Some? && prep[k].value.body.PrepareResponse? ==> prep[k].value.body.prepHash == IdOf(msg)
      modifies this`prep, this`earlyPrep, this`earlyCommits
      ensures Valid() && prep == old(prep)[primary := Some(msg)] && earlyPrep == old(prep) && earlyCommits == commits
    {
      hide Kept, Votes;
      ghost var s := Now();
      StoreRequestOk(c, s, msg);
      earlyPrep, earlyCommits := prep, commits;
      prep := prep[msg.index := Some(msg)];
      assert Now() == s.(prep := s.prep[primary := Some(msg)], earlyPrep := s.prep, earlyCommits := s.commits);
    }

    method TakeProposal(msg: Payload, env: Env)
      requires msg.body.PrepareRequest?
      requires StateOk(c, Now().(current := msg.body.req, prep := Purged(prep, IdOf(msg))))
      modifies this`current, this`transactions, this`missing
      ensures Now() == Refilled(old(Now()).(current := msg.body.req), env) && current == msg.body.req
      ensures StateOk(c, Now().(prep := Purged(prep, IdOf(msg))))
    {
      ghost var s := Now();
      current := msg.body.req;
      ProcessMissingTx(env);
      TransactionsOk(c, s.(current := current, prep := Purged(prep, IdOf(msg))), transactions, missing, blockSent);
    }

    /** Drops the responses to another request; no commit is checked, as the request is not stored yet. */
    method UpdateExistingPayloads(msg: Payload)
      requires |prep| == c.n && primary < c.n && prep[primary].None? && header.None? && !relapsed
      requires StateOk(c, Now().(prep := Purged(prep, IdOf(msg))))
      modifies this`prep, this`header
      ensures Valid() && prep == Purged(old(prep), IdOf(msg)) && header.None?
      ensures |prep| == |old(prep)| && forall k :: 0 <= k < |prep| ==>
        var m := old(prep)[k];
        prep[k] == if m.Some? && m.value.body.PrepareResponse? && m.value.body.prepHash != IdOf(msg) then None else m
    {
      var i := 0;
      while i < |prep|
        modifies this`prep
        invariant 0 <= i <= |prep| == |old(prep)|
        invariant prep[..i] == Purged(old(prep), IdOf(msg))[..i]
        invariant prep[i..] == old(prep)[i..]
      {
        var m := prep[i];
        assert old(prep)[i] == prep[i..][0];
        if m.Some? && m.value.body.PrepareResponse? && m.value.body.prepHash != IdOf(msg) {
          prep := prep[i := None];
        }
        i := i + 1;
      }
      assert prep[..i] == prep && Purged(old(prep), IdOf(msg))[..i] == Purged(old(prep), IdOf(msg));
      var h := MakeHeader();
      assert h.None?;
    }

    /** Stores a response when its slot is free and it fits the request, if that is there, and signs as soon as it can. */
    method OnPrepareResponse(msg: Payload, env: Env)
      requires Valid() && msg.body.PrepareResponse? && msg.height == height && 0 <= msg.index < c.n
      requires OwnOk(msg, c.me, log) && Votes(msg) <= log.heard
      modifies this
      ensures Brief() == AfterResponse(c, old(Brief()), msg, env)
      ensures relapsed <==> Relapses(c, old(Now()), Now())
      ensures Sound() && (relapsed ==> log.decided != old(log.decided))
      ensures var fits := old(prep[primary]).Some? ==> IdOf(old(prep[primary]).value) == msg.body.prepHash;
        (|| msg.view != old(view) || msg.index == old(primary) || old(prep)[msg.index].Some? || !fits
         || old(ViewChanging(c, Now()) && !MoreThanF(c, Now()))) ==> unchanged(this)
    {
      hide AfterPreparations;
      PrimaryFacts(c, Now());
      if view != msg.view || msg.index == c.primaryOf(height, view) {
        return;
      }
      var moreThanF := MoreThanFNodesCommittedOrLost();
      if prep[msg.index].Some? || (IsViewChanging() && !moreThanF) {
        return;
      }
      ghost var s := Now();
      prep := prep[msg.index := Some(msg)];
      if prep[primary].Some? && IdOf(prep[primary].value) != msg.body.prepHash {
        prep := prep[msg.index := None];
        assert prep == s.prep;
        return;
      }
      StoreResponseOk(c, s, msg);
      assert Now() == s.(prep := s.prep[msg.index := Some(msg)]);
      if !WatchOnly() && !CommitSent() && RequestSentOrReceived() {
        CheckPrepare(env);
      }
    }

    /**
     Enters a view if and only if M validators ask for it or for one beyond, the sender not for less than
     before, and nothing was signed.
     */
    method OnChangeView(msg: Payload)
      requires Valid() && msg.body.ChangeView? && msg.height == height && 0 <= msg.index < c.n
      modifies this
      ensures Brief() == AfterChangeView(c, old(Brief()), msg)
      ensures Valid() && !Relapses(c, old(Now()), Now())
      ensures view != old(view) <==>
        && msg.body.newView > old(view) && !old(CommitSent())
        && (old(changeViews[msg.index].Some? && changeViews[msg.index].value.body.ChangeView?) ==>
            old(changeViews[msg.index]).value.body.newView <= msg.body.newView)
        && old(|Asking(changeViews[msg.index := Some(msg)], msg.body.newView)|) >= M(c.n)
    {
      PrimaryFacts(c, Now());
      if msg.body.newView <= view {
        OnRecoveryRequest(msg);
        return;
      }
      if CommitSent() {
        SendRecoveryMessage();
        return;
      }
      var m := changeViews[msg.index];
      if m.Some? && msg.body.newView < m.value.body.newView {
        return;
      }
      ChangeViewOk(c, Now(), msg.index, msg, out);
      changeViews := changeViews[msg.index := Some(msg)];
      CheckChangeView(msg.body.newView);
    }

    /**
     A commit is checked against the header only when that is there. A block is decided if and only if the
     request, all transactions and M commits of this view are there.
     */
    method OnCommit(msg: Payload, env: Env)
      requires Valid() && msg.body.Commit? && msg.height == height && 0 <= msg.index < c.n
      requires OwnOk(msg, c.me, log) && msg in log.commits
      modifies this
      ensures Brief() == AfterCommit(c, old(Brief()), msg, env)
      ensures relapsed <==> Relapses(c, old(Now()), Now())
      ensures Sound() && (relapsed ==> log.decided != old(log.decided))
      ensures log.decided != old(log.decided) <==>
        && msg.view == old(view) && old(prep[primary].Some? && KeepsCommit(c, Now(), msg) && HasAllTransactions())
        && old(|InView(commits[msg.index := Some(msg)], view)|) >= M(c.n)
      ensures log.decided == old(log.decided) ==>
        var stored := msg.view != old(view) || old(prep[primary].None?) || msg.body.sig == Signature(msg.index, old(Now().Block(c.prevHash)));
        commits == if stored then old(commits)[msg.index := Some(msg)] else old(commits)
    {
      if view == msg.view {
        var h := MakeHeader();
        if h.None? {
          StoreCommit(msg);
        } else if msg.body.sig == Signature(msg.index, h.value) {
          StoreCommit(msg);
          CheckCommit(env);
        }
        return;
      }
      StoreCommit(msg);
    }

    method StoreCommit(msg: Payload)
      requires Valid() && msg.body.Commit? && msg.height == height && 0 <= msg.index < c.n
      requires OwnOk(msg, c.me, log) && msg in log.commits && KeepsCommit(c, Now(), msg)
      modifies this`commits
      ensures Valid() && commits == old(commits)[msg.index := Some(msg)]
    {
      StoreCommitOk(c, Now(), msg);
      commits := commits[msg.index := Some(msg)];
    }

    /**
     The last missing transaction of an accepted proposal makes a backup prepare it; that of a rejected one
     makes it ask for the next view, and forget what it signed if a quorum does.
     */
    method OnTransaction(tx: Tx, env: Env)
      requires Valid()
      modifies this
      ensures Brief() == AfterTransaction(c, old(Brief()), tx, env)
      ensures !old(Awaits(c, Now(), tx)) ==> unchanged(this)
      ensures relapsed <==> Relapses(c, old(Now()), Now())
      ensures Sound()
    {
      assert Sound();
      hide AfterTransaction, Waits, Sound, StateOk;
      var waits := IsWaiting();
      var i := FindMissing(tx);
      if waits && i < |missing| {
        TakeMissing(i, tx, env);
      } else {
        NotAwaited(c, Brief(), tx, env);
      }
    }

    /** The transaction was missing. */
    method TakeMissing(i: nat, tx: Tx, env: Env)
      requires Valid() && Waits(c, Brief()) && i == IndexOf(missing, tx) < |missing|
      modifies this
      ensures Brief() == AfterTransaction(c, old(Brief()), tx, env)
      ensures relapsed <==> Relapses(c, old(Now()), Now())
      ensures Sound()
    {
      hide AfterFilling, Waits, Sound, StateOk;
      AddTransaction(tx, env);
      Strike(i);
    }

    method FindMissing(tx: Tx) returns (i: nat)
      ensures i == IndexOf(missing, tx)
    {
      i := 0;
      while i < |missing|
        invariant i <= |missing| && tx !in missing[..i]
      {
        if tx == missing[i] {
          FirstIndex(missing, tx, i);
          return;
        }
        i := i + 1;
      }
      assert missing[..i] == missing;
    }

    method IsWaiting() returns (waits: bool)
      requires Valid()
      ensures waits ==> Waits(c, Brief())
      ensures !waits ==> !Waits(c, Brief()) || missing == []
    {
      var moreThanF := MoreThanFNodesCommittedOrLost();
      waits := !(!IsBackup() || (IsViewChanging() && !moreThanF) || !RequestSentOrReceived() || ResponseSent() || blockSent || missing == []);
    }

    /** Takes one from the list of missing transactions, if that has not been cleared. */
    method Strike(i: nat)
      requires Sound() && (missing == [] || i < |missing|)
      modifies this`missing
      ensures Sound()
      ensures missing == if old(missing) == [] then [] else old(missing)[i := old(missing)[|old(missing)| - 1]][..|old(missing)| - 1]
    {
      if missing == [] {
        return;
      }
      var last := |missing| - 1;
      ghost var s := Now();
      missing := missing[i := missing[last]][..last];
      if !relapsed { TransactionsOk(c, s, transactions, missing, blockSent); }
    }

    method AddTransaction(tx: Tx, env: Env)
      requires Valid() && IsBackup() && RequestSentOrReceived() && !ResponseSent()
      modifies this
      ensures Brief() == AfterFilling(c, old(Brief()).(transactions := old(transactions) + {tx}), env)
      ensures relapsed <==> Relapses(c, old(Now()), Now())
      ensures Sound()
      ensures missing == old(missing) || missing == []
    {
      TransactionsOk(c, Now(), transactions + {tx}, missing, blockSent);
      transactions := transactions + {tx};
      Answer(env);
    }

    /** What a validator sends first when its timer fires. */
    ghost predicate Calls(before: State, msg: Payload, env: Env)
      requires Formed(c, before) && c.me >= 0
    {
      && msg.height == before.height && msg.view == before.view && msg.index == c.me
      && if c.me == before.primary && before.prep[before.primary].None? then msg.body == PrepareRequest(Proposal(before.current, env))
         else if Committed(c, before) then msg.body.Recovery?
         else if MoreThanF(c, before) then msg.body == RecoveryRequest
         else msg.body == ChangeView(NextView(before.view))
    }

    /** An old timeout changes nothing; the primary proposes, a node that has signed stays, any other asks for the next view. */
    method OnTimeout(env: Env, h: nat, v: nat)
      requires Valid()
      modifies this
      ensures Brief() == AfterTimeout(c, old(Brief()), env, h, v)
      ensures relapsed <==> Relapses(c, old(Now()), Now())
      ensures Sound() && (relapsed ==> log.decided != old(log.decided))
      ensures old(CommitSent()) ==> view == old(view) && height == old(height) && commits == old(commits)
      ensures WatchOnly() || h != old(height) || v != old(view) ==> unchanged(this)
      ensures !WatchOnly() && h == old(height) && v == old(view) ==> |out| > |old(out)| && Calls(old(Now()), out[|old(out)|], env)
      ensures h == old(height) && v == old(view) && old(IsPrimary() && !RequestSentOrReceived()) && !WatchOnly() ==>
        Proposed(old(Now()), env)
      ensures h == old(height) && v == old(view) && !old(IsPrimary() && !RequestSentOrReceived()) && !old(CommitSent()) ==>
        (view != old(view) <==> old(Moves(c, Now())))
    {
      if WatchOnly() || h != height || v != view {
        return;
      }
      if IsPrimary() && !RequestSentOrReceived() {
        RequestKept(c, Now());
        SendPrepareRequest(env);
      } else if CommitSent() {
        SendRecoveryMessage();
      } else {
        SendChangeView(env);
      }
    }

    /** Starts the height after the chain; a primary proposes at once. */
    method Start(env: Env)
      requires Valid() && height <= env.chain
      modifies this
      ensures Brief() == AfterStart(c, old(Brief()), env)
      ensures relapsed <==> Relapses(c, Renewed(c, old(Brief()), env.chain + 1, 0), Brief())
      ensures Sound() && height > old(height) && (relapsed ==> Undone(old(log), log, env))
      ensures c.primaryOf(env.chain + 1, 0) == c.me ==> Proposed(Renewed(c, old(Now()), env.chain + 1, 0), env)
    {
      hide AfterProposal, Undone;
      InitializeConsensus(0, env.chain);
      if IsPrimary() {
        SendPrepareRequest(env);
      }
    }

    /** A block of the chain at this height or beyond starts the height after the chain (pkg/consensus/consensus.go). */
    method HandleChainBlock(index: nat, env: Env)
      requires Valid() && index <= env.chain
      modifies this
      ensures Valid()
      ensures Brief() == if index >= old(height) then Renewed(c, old(Brief()), env.chain + 1, 0) else old(Brief())
    {
      if index >= height {
        InitializeConsensus(0, env.chain);
      }
    }

    /**
     Handles a message; `log` records what the node was told. A message in the node's own name is one that
     it sent. A node that has signed stays in its view for as long as it stays at its height, unless it
     starts this height anew because a block that it decided did not get into the chain.
     */
    method OnReceive(msg: Payload, env: Env)
      requires Valid() && OwnOk(msg, c.me, log)
      modifies this
      ensures Left(Brief(), relapsed) == AfterReceiving(c, old(Brief()), msg, env)
      ensures Sound() && Onward(old(Now()).(log := Told(old(log), msg)), Now())
      ensures relapsed ==> Undone(old(log), log, env)
      ensures !old(Handles(c, Now(), msg)) ==> Now() == old(Now()).(log := log) && log == Told(old(log), msg)
      ensures old(CommitSent()) && height == old(height) && !relapsed ==> CommitSent() && view == old(view)
      ensures Heard(c, old(Now()), Now(), msg, relapsed)
      decreases msg, 7
    {
      hide StateOk, Kept, AfterReceiving, Undone, Onward, Handles, Told;
      ghost var s := Now();
      Receive(msg, env);
      HeardIs(c, s, Now(), msg, env, relapsed);
    }

    method Receive(msg: Payload, env: Env)
      requires Valid() && OwnOk(msg, c.me, log)
      modifies this
      ensures Left(Brief(), relapsed) == AfterReceiving(c, old(Brief()), msg, env)
      ensures Sound() && Onward(old(Now()).(log := Told(old(log), msg)), Now())
      ensures relapsed ==> Undone(old(log), log, env)
      ensures !old(Handles(c, Now(), msg)) ==> Now() == old(Now()).(log := log) && log == Told(old(log), msg)
      ensures old(CommitSent()) && height == old(height) && !relapsed ==> CommitSent() && view == old(view)
      decreases msg, 6
    {
      hide AfterBody, AfterRecovery, Kept, Votes, Commits;
      Hear(msg);
      if msg.index < 0 || msg.index >= c.n || msg.height < height {
        return;
      }
      if msg.height > height || (msg.view == NextView(view) && !msg.body.Recovery?) {
        return;
      }
      See(msg);
      Dispatch(msg, env);
    }

    /** Hands the message to the handler of its type. */
    method Dispatch(msg: Payload, env: Env)
      requires Valid() && OwnOk(msg, c.me, log) && 0 <= msg.index < c.n && msg.height == height
      requires Votes(msg) <= log.heard && Commits(msg) <= log.commits
      modifies this
      ensures !msg.body.Recovery? ==> Brief() == AfterBody(c, old(Brief()), msg, env) && (relapsed <==> Relapses(c, old(Now()), Now()))
      ensures msg.body.Recovery? ==> Left(Brief(), relapsed) == AfterRecovery(c, old(Brief()), msg, env)
      ensures Sound() && Onward(old(Now()), Now()) && (relapsed ==> Undone(old(log), log, env))
      ensures old(CommitSent()) && height == old(height) && !relapsed ==> CommitSent() && view == old(view)
      decreases msg, 5
    {
      hide AfterChangeView, AfterRequest, AfterResponse, AfterCommit, AfterRecovery;
      if CommitSent() { CommitFacts(c, Now()); }
      match msg.body {
        case ChangeView(_) => OnChangeView(msg);
        case PrepareRequest(_) => OnPrepareRequest(msg, env);
        case PrepareResponse(_) => OnPrepareResponse(msg, env);
        case Commit(_) => OnCommit(msg, env);
        case RecoveryRequest => OnRecoveryRequest(msg);
        case Recovery(_, _, _, _) => OnRecoveryMessage(msg, env);
      }
      if old(CommitSent()) && height == old(height) && !relapsed { SignedStay(c, Now()); }
    }

    method Hear(msg: Payload)
      requires Valid() && OwnOk(msg, c.me, log)
      modifies this`log
      ensures Valid() && log == Told(old(log), msg) && OwnOk(msg, c.me, log)
    {
      HeardOk(c, Now(), msg);
      OwnMono(msg, c.me, log, Told(log, msg));
      log := Told(log, msg);
    }

    method See(msg: Payload)
      requires Valid() && 0 <= msg.index < c.n && msg.height == height
      modifies this`lastSeen, this`met
      ensures Valid() && lastSeen == Noted(old(lastSeen), msg) && met == old(met) + {ContactOf(msg)}
    {
      SeenOk(c, Now(), msg);
      var hv := lastSeen[msg.index];
      if hv.None? || hv.value.height < msg.height || hv.value.view < msg.view {
        lastSeen := lastSeen[msg.index := Some(Seen(msg.height, msg.view))];
      }
      met := met + {ContactOf(msg)};
    }

    /** Replays the parts of a recovery message that can be of use. */
    method OnRecoveryMessage(msg: Payload, env: Env)
      requires Valid() && msg.body.Recovery? && OwnOk(msg, c.me, log)
      requires Votes(msg) <= log.heard && Commits(msg) <= log.commits
      modifies this
      ensures Left(Brief(), relapsed) == AfterRecovery(c, old(Brief()), msg, env)
      ensures Sound() && Onward(old(Now()), Now()) && (relapsed ==> Undone(old(log), log, env))
      ensures old(CommitSent()) && height == old(height) && !relapsed ==> view == old(view)
      decreases msg, 4
    {
      hide AfterParts, AfterReplay, StateOk;
      if msg.view > view {
        if CommitSent() {
          return;
        }
        Replay(msg.body.changeViews, msg, env);
      }
      if !relapsed {
        RecoverView(msg, env);
      }
    }

    method RecoverView(msg: Payload, env: Env)
      requires Valid() && msg.body.Recovery? && OwnOk(msg, c.me, log)
      requires Votes(msg) <= log.heard && Commits(msg) <= log.commits
      modifies this
      ensures Left(Brief(), relapsed) == AfterParts(c, old(Brief()), msg, env)
      ensures Sound() && Onward(old(Now()), Now()) && (relapsed ==> Undone(old(log), log, env))
      ensures old(CommitSent()) && height == old(height) && !relapsed ==> view == old(view)
      decreases msg, 3
    {
      hide AfterPreparing, AfterReplay, StateOk;
      var moreThanF := MoreThanFNodesCommittedOrLost();
      if msg.view == view && !(IsViewChanging() && !moreThanF) && !CommitSent() {
        RecoverPreparations(msg, env);
      }
      if !relapsed && msg.view <= view {
        Replay(msg.body.commits, msg, env);
      }
    }

    method RecoverPreparations(msg: Payload, env: Env)
      requires Valid() && msg.body.Recovery? && OwnOk(msg, c.me, log) && !CommitSent()
      requires Votes(msg) <= log.heard && Commits(msg) <= log.commits
      modifies this
      ensures Left(Brief(), relapsed) == AfterPreparing(c, old(Brief()), msg, env)
      ensures Sound() && Onward(old(Now()), Now()) && OwnOk(msg, c.me, log)
      ensures relapsed ==> Undone(old(log), log, env)
      decreases msg, 2
    {
      hide AfterProposal, AfterReplay;
      ghost var before := log;
      if !RequestSentOrReceived() {
        if msg.body.request.Some? {
          Replay([msg.body.request.value], msg, env);
        } else if IsPrimary() {
          SendPrepareRequest(env);
          OwnMono(msg, c.me, before, log);
        }
      }
      if !relapsed {
        Replay(msg.body.responses, msg, env);
      }
    }

    /** Handles the parts one after the other, as if each had been received, until the node relapses. */
    method Replay(ps: seq<Payload>, msg: Payload, env: Env)
      requires Valid() && msg.body.Recovery? && OwnOk(msg, c.me, log)
      requires Votes(msg) <= log.heard && Commits(msg) <= log.commits
      requires forall p :: p in ps ==> IsPart(p, msg)
      modifies this
      ensures Left(Brief(), relapsed) == AfterReplay(c, old(Brief()), ps, msg, env)
      ensures Sound() && Onward(old(Now()), Now()) && OwnOk(msg, c.me, log)
      ensures relapsed ==> Undone(old(log), log, env)
      ensures old(CommitSent()) && height == old(height) && !relapsed ==> CommitSent() && view == old(view)
      decreases msg, 1
    {
      hide AfterReceiving, AfterReplay, StateOk, OwnOk, Votes, Commits, Kept;
      var i := 0;
      assert ps[0..] == ps;
      while i < |ps| && !relapsed
        invariant 0 <= i <= |ps| && (relapsed || Formed(c, Brief()))
        invariant AfterReplay(c, old(Brief()), ps, msg, env)
          == if relapsed then Left(Brief(), true) else AfterReplay(c, Brief(), ps[i..], msg, env)
        invariant Sound() && Onward(old(Now()), Now()) && OwnOk(msg, c.me, log)
        invariant relapsed ==> Undone(old(log), log, env)
        invariant old(CommitSent()) && height == old(height) && !relapsed ==> CommitSent() && view == old(view)
      {
        ReplayStep(c, Brief(), ps, i, msg, env);
        PartOk(ps[i], msg, c.me, log);
        ReplayOne(ps[i], msg, env);
        i := i + 1;
      }
      if !relapsed { ReplayEnds(c, Brief(), ps, msg, env); }
    }

    method ReplayOne(p: Payload, msg: Payload, env: Env)
      requires Valid() && IsPart(p, msg) && p < msg && OwnOk(msg, c.me, log)
      requires Votes(msg) <= log.heard && Commits(msg) <= log.commits
      modifies this
      ensures Left(Brief(), relapsed) == AfterReceiving(c, old(Brief()), p, env)
      ensures Sound() && Onward(old(Now()), Now()) && OwnOk(msg, c.me, log)
      ensures relapsed ==> Undone(old(log), log, env)
      ensures old(CommitSent()) && height == old(height) && !relapsed ==> CommitSent() && view == old(view)
      decreases msg, 0
    {
      hide AfterReceiving, StateOk, Kept;
      PartOk(p, msg, c.me, log);
      ghost var before := log;
      OnReceive(p, env);
      OwnMono(msg, c.me, before, log);
    }
  }
}
