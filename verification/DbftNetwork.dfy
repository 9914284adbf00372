/**
 A network of dBFT nodes: any list of events, of which the honest nodes handle what concerns them. A
 message is let through when all that it carries in the name of an honest node was sent by that node, as
 the signatures of messages make sure of. A node that relapses is not followed any further, and counts as
 faulty. What is executed is a run in the sense of module DbftSafety.
 */
module DbftNetwork {
  import opened Wrappers
  import opened DbftTypes
  import opened DbftState
  import opened DbftSteps
  import opened DbftSafety
  import opened Dbft

  /** What happens to node `i`. */
  datatype Event =
    | Start(i: nat, env: Env)
    | NewBlock(i: nat, env: Env, index: nat)
    | Message(i: nat, env: Env, msg: Payload)
    | Timeout(i: nat, env: Env, height: nat, view: nat)
    | Transaction(i: nat, env: Env, tx: Tx)

  function Outs(nodes: seq<DBFT>): (outs: seq<seq<Payload>>)
    reads nodes
    ensures |outs| == |nodes| && forall i :: 0 <= i < |nodes| ==> outs[i] == nodes[i].out
  {
    seq(|nodes|, i requires 0 <= i < |nodes| reads nodes => nodes[i].out)
  }

  ghost function Logs(nodes: seq<DBFT>): (w: World)
    reads nodes
    ensures |w| == |nodes| && forall i :: 0 <= i < |nodes| ==> w[i] == nodes[i].log
  {
    seq(|nodes|, i requires 0 <= i < |nodes| reads nodes => nodes[i].log)
  }

  /** The parts of a message that are in the name of honest nodes are among what these have broadcast. */
  predicate Vouched(net: Net, outs: seq<seq<Payload>>, msg: Payload) {
    match msg.body
    case Recovery(cvs, request, responses, commits) =>
      && (forall p :: p in cvs ==> Vouched(net, outs, p))
      && (request.Some? ==> Vouched(net, outs, request.value))
      && (forall p :: p in responses ==> Vouched(net, outs, p))
      && (forall p :: p in commits ==> Vouched(net, outs, p))
    case _ => msg.index in net.honest ==> msg.index < |outs| && msg in outs[msg.index]
  }

  /** What the honest nodes have broadcast is on record. */
  ghost predicate OutsOk(net: Net, outs: seq<seq<Payload>>, w: World) {
    && |outs| == |w| && net.honest <= All(|w|)
    && forall i :: i in net.honest ==> OutOk(i, outs[i], w[i])
  }

  lemma {:induction false} VouchedIsAuthentic(net: Net, outs: seq<seq<Payload>>, w: World, msg: Payload)
    requires OutsOk(net, outs, w) && Vouched(net, outs, msg)
    ensures Authentic(net, w, Votes(msg), Commits(msg))
  {
    match msg.body {
      case Recovery(cvs, request, responses, commits) =>
        hide OutsOk, Authentic;
        if request.Some? { VouchedIsAuthentic(net, outs, w, request.value); }
        forall p | p in cvs ensures Authentic(net, w, Votes(p), Commits(p)) { VouchedIsAuthentic(net, outs, w, p); }
        forall p | p in responses ensures Authentic(net, w, Votes(p), Commits(p)) { VouchedIsAuthentic(net, outs, w, p); }
        forall p | p in commits ensures Authentic(net, w, Votes(p), Commits(p)) { VouchedIsAuthentic(net, outs, w, p); }
        PartsAuthentic(net, w, msg);
      case _ =>
        if msg.index in net.honest { SentIsAuthentic(net, outs, w, msg); }
    }
  }

  lemma {:induction false} SentIsAuthentic(net: Net, outs: seq<seq<Payload>>, w: World, msg: Payload)
    requires OutsOk(net, outs, w) && !msg.body.Recovery? && msg.index in net.honest && msg.index < |outs| && msg in outs[msg.index]
    ensures Authentic(net, w, Votes(msg), Commits(msg))
  {
    assert OutOk(msg.index, outs[msg.index], w[msg.index]);
    assert OwnOk(msg, msg.index, w[msg.index]);
  }

  lemma {:induction false} PartsAuthentic(net: Net, w: World, msg: Payload)
    requires msg.body.Recovery?
    requires msg.body.request.Some? ==> Authentic(net, w, Votes(msg.body.request.value), Commits(msg.body.request.value))
    requires forall p :: p in msg.body.changeViews ==> Authentic(net, w, Votes(p), Commits(p))
    requires forall p :: p in msg.body.responses ==> Authentic(net, w, Votes(p), Commits(p))
    requires forall p :: p in msg.body.commits ==> Authentic(net, w, Votes(p), Commits(p))
    ensures Authentic(net, w, Votes(msg), Commits(msg))
  {
    hide Genuine, Votes, Commits;
    forall v | v in Votes(msg) && v.k in net.honest ensures v.k < |w| && v in w[v.k].sent { VotePart(msg, v); }
    forall q | q in Commits(msg) && q.index in net.honest ensures q.index < |w| && Genuine(q, SignedHeaders(w[q.index].signed)) {
      CommitPart(msg, q);
    }
  }

  lemma {:induction false} VotePart(msg: Payload, v: Vote)
    requires msg.body.Recovery? && v in Votes(msg)
    ensures (msg.body.request.Some? && v in Votes(msg.body.request.value))
      || (exists p :: p in msg.body.changeViews && v in Votes(p))
      || (exists p :: p in msg.body.responses && v in Votes(p))
      || (exists p :: p in msg.body.commits && v in Votes(p))
  {
  }

  lemma {:induction false} CommitPart(msg: Payload, q: Payload)
    requires msg.body.Recovery? && q in Commits(msg)
    ensures (msg.body.request.Some? && q in Commits(msg.body.request.value))
      || (exists p :: p in msg.body.changeViews && q in Commits(p))
      || (exists p :: p in msg.body.responses && q in Commits(p))
      || (exists p :: p in msg.body.commits && q in Commits(p))
  {
  }

  lemma {:induction false} AuthenticPart(net: Net, w: World, votes: set<Vote>, commits: set<Payload>, votes': set<Vote>, commits': set<Payload>)
    requires Authentic(net, w, votes, commits) && votes' <= votes && commits' <= commits
    ensures Authentic(net, w, votes', commits')
  {
  }

  lemma {:induction false} AuthenticIsOwn(net: Net, w: World, i: nat, msg: Payload)
    requires i in net.honest && i < |w| && Authentic(net, w, Votes(msg), Commits(msg))
    ensures OwnOk(msg, i, w[i])
  {
  }

  /** The nodes of a network; those that are not honest are never looked at. */
  ghost predicate Connected(net: Net, nodes: seq<DBFT>)
    reads nodes
  {
    && NetOk(net) && |nodes| == net.n
    && (forall i, j :: 0 <= i < j < |nodes| ==> nodes[i] != nodes[j])
    && forall i :: i in net.honest && i < |nodes| ==> nodes[i].c == ConfigOf(net, i)
  }

  ghost predicate AllValid(net: Net, nodes: seq<DBFT>)
    reads nodes
  {
    forall i :: i in net.honest && i < |nodes| ==> nodes[i].Valid()
  }

  lemma {:induction false} ValidOuts(net: Net, nodes: seq<DBFT>)
    requires Connected(net, nodes) && AllValid(net, nodes)
    ensures OutsOk(net, Outs(nodes), Logs(nodes))
  {
    forall i | i in net.honest ensures OutOk(i, Outs(nodes)[i], Logs(nodes)[i]) {
      assert Mention(nodes[i].Now());
      assert nodes[i].Valid();
    }
  }

  // ---- one event ----

  /** What an event makes of the state of its node. */
  ghost function AfterEvent(c: Config, s: State, event: Event): Left
    requires Formed(c, s)
  {
    match event
    case Start(_, env) =>
      if s.height > 0 then Left(s, false)
      else
        var r := AfterStart(c, s, env);
        Left(r, Relapses(c, Renewed(c, s, env.chain + 1, 0), r))
    case NewBlock(_, env, index) =>
      Left(if s.height <= index <= env.chain then Renewed(c, s, env.chain + 1, 0) else s, false)
    case Message(_, env, msg) => AfterReceiving(c, s, msg, env)
    case Timeout(_, env, height, view) => LeftAfter(c, s, AfterTimeout(c, s, env, height, view))
    case Transaction(_, env, tx) => LeftAfter(c, s, AfterTransaction(c, s, tx, env))
  }

  /** The node has handled an event: its log grew and is sound, and what it heard is authentic. */
  twostate predicate Handled(net: Net, nodes: seq<DBFT>, i: nat)
    requires i < |nodes|
    reads nodes
  {
    && nodes[i].Sound() && Grows(old(nodes[i].log), nodes[i].log)
    && Authentic(net, old(Logs(nodes)), nodes[i].log.heard - old(nodes[i].log.heard), nodes[i].log.commits - old(nodes[i].log.commits))
  }

  /** The node is where the event leads it. */
  twostate predicate Moved(nodes: seq<DBFT>, event: Event)
    requires event.i < |nodes|
    reads nodes
  {
    var node := nodes[event.i];
    Formed(node.c, old(node.Brief())) && Left(node.Brief(), node.relapsed) == AfterEvent(node.c, old(node.Brief()), event)
  }

  /** A message is handled when it is vouched for. */
  method Deliver(net: Net, nodes: seq<DBFT>, i: nat, msg: Payload, env: Env)
    requires Connected(net, nodes) && AllValid(net, nodes) && i in net.honest && i < net.n && Vouched(net, Outs(nodes), msg)
    modifies nodes[i]
    ensures Handled(net, nodes, i) && Moved(nodes, Message(i, env, msg))
  {
    hide AfterReceiving, OutsOk, Relapses, Undone, Votes, Commits, Authentic, OwnOk, Handles, Kept, Vouched;
    ghost var w := Logs(nodes);
    ValidOuts(net, nodes);
    VouchedIsAuthentic(net, Outs(nodes), w, msg);
    AuthenticIsOwn(net, w, i, msg);
    nodes[i].OnReceive(msg, env);
    ghost var log := nodes[i].log;
    AuthenticPart(net, w, Votes(msg), Commits(msg), log.heard - w[i].heard, log.commits - w[i].commits);
  }

  /** The timer fires. */
  method Fire(net: Net, nodes: seq<DBFT>, i: nat, env: Env, height: nat, view: nat)
    requires Connected(net, nodes) && AllValid(net, nodes) && i in net.honest && i < net.n
    modifies nodes[i]
    ensures Handled(net, nodes, i) && Moved(nodes, Timeout(i, env, height, view))
  {
    hide AfterTimeout;
    nodes[i].OnTimeout(env, height, view);
  }

  method HandOver(net: Net, nodes: seq<DBFT>, i: nat, tx: Tx, env: Env)
    requires Connected(net, nodes) && AllValid(net, nodes) && i in net.honest && i < net.n
    modifies nodes[i]
    ensures Handled(net, nodes, i) && Moved(nodes, Transaction(i, env, tx))
  {
    hide AfterTransaction;
    nodes[i].OnTransaction(tx, env);
  }

  /** The node starts, once. */
  method Begin(net: Net, nodes: seq<DBFT>, i: nat, env: Env)
    requires Connected(net, nodes) && AllValid(net, nodes) && i in net.honest && i < net.n
    modifies nodes[i]
    ensures Handled(net, nodes, i) && Moved(nodes, Start(i, env))
  {
    hide AfterStart, Undone, NoPayloads, Renewed, Relapses;
    if nodes[i].height == 0 {
      nodes[i].Start(env);
    }
  }

  /** The node goes on at the height after a new block of the chain. */
  method GoOn(net: Net, nodes: seq<DBFT>, i: nat, env: Env, index: nat)
    requires Connected(net, nodes) && AllValid(net, nodes) && i in net.honest && i < net.n
    modifies nodes[i]
    ensures Handled(net, nodes, i) && Moved(nodes, NewBlock(i, env, index))
  {
    hide NoPayloads;
    if index <= env.chain {
      nodes[i].HandleChainBlock(index, env);
    }
  }

  /** Node `event.i` handles the event, if it is one that can happen to it. */
  method Handle(net: Net, nodes: seq<DBFT>, event: Event)
    requires Connected(net, nodes) && AllValid(net, nodes) && event.i in net.honest && event.i < net.n
    requires event.Message? ==> Vouched(net, Outs(nodes), event.msg)
    modifies nodes[event.i]
    ensures Handled(net, nodes, event.i) && Moved(nodes, event)
  {
    hide Handled, AllValid, AfterEvent;
    match event {
      case Start(i, env) => Begin(net, nodes, i, env);
      case NewBlock(i, env, index) => GoOn(net, nodes, i, env, index);
      case Message(i, env, msg) => Deliver(net, nodes, i, msg, env);
      case Timeout(i, env, height, view) => Fire(net, nodes, i, env, height, view);
      case Transaction(i, env, tx) => HandOver(net, nodes, i, tx, env);
    }
  }

  // ---- lists of events ----

  /** All nodes at a moment. */
  type Moment = seq<Left>

  ghost function Snapshot(nodes: seq<DBFT>): (x: Moment)
    reads nodes
    ensures |x| == |nodes| && forall i :: 0 <= i < |nodes| ==> x[i] == Left(nodes[i].Now(), nodes[i].relapsed)
  {
    seq(|nodes|, i requires 0 <= i < |nodes| reads nodes => Left(nodes[i].Now(), nodes[i].relapsed))
  }

  ghost function LogsAt(x: Moment): (w: World)
    ensures |w| == |x| && forall i :: 0 <= i < |x| ==> w[i] == x[i].now.log
  {
    seq(|x|, i requires 0 <= i < |x| => x[i].now.log)
  }

  function OutsAt(x: Moment): (outs: seq<seq<Payload>>)
    ensures |outs| == |x| && forall i :: 0 <= i < |x| ==> outs[i] == x[i].now.out
  {
    seq(|x|, i requires 0 <= i < |x| => x[i].now.out)
  }

  /** The network with a node less that is relied on. */
  function Less(net: Net, i: nat): Net {
    net.(honest := net.honest - {i})
  }

  /** The network in which those that have relapsed count as faulty. */
  function Standing(net: Net, x: Moment): Net {
    net.(honest := set i | i in net.honest && i < |x| && !x[i].relapsed)
  }

  /** An honest node handles its events, and messages when they are vouched for. */
  predicate Heeded(net: Net, x: Moment, event: Event) {
    event.i in net.honest && (event.Message? ==> Vouched(net, OutsAt(x), event.msg))
  }

  /** One moment after another: the node of the event is where this leads it, and the others are where they were. */
  ghost predicate Follows(net: Net, x: Moment, x': Moment, event: Event) {
    && event.i < |x| && |x'| == |x| && x' == x[event.i := x'[event.i]]
    && var s, r, c := x[event.i], x'[event.i], ConfigOf(net, event.i);
      if Heeded(net, x, event)
      then Formed(c, Bare(s.now)) && Left(Bare(r.now), r.relapsed) == AfterEvent(c, Bare(s.now), event)
      else r == s
  }

  ghost predicate IsTrace(net: Net, trace: seq<Moment>, events: seq<Event>) {
    |trace| == |events| + 1 && forall t :: 0 <= t < |events| ==> Follows(Standing(net, trace[t]), trace[t], trace[t + 1], events[t])
  }

  ghost function Worlds(trace: seq<Moment>): (run: seq<World>)
    ensures |run| == |trace| && forall t :: 0 <= t < |trace| ==> run[t] == LogsAt(trace[t])
  {
    seq(|trace|, t requires 0 <= t < |trace| => LogsAt(trace[t]))
  }

  function Acting(events: seq<Event>): (acting: seq<nat>)
    ensures |acting| == |events| && forall t :: 0 <= t < |events| ==> acting[t] == events[t].i
  {
    seq(|events|, t requires 0 <= t < |events| => events[t].i)
  }

  lemma {:induction false} TraceGrows(net: Net, trace: seq<Moment>, events: seq<Event>, x: Moment, event: Event)
    requires IsTrace(net, trace, events) && Follows(Standing(net, trace[|events|]), trace[|events|], x, event)
    ensures IsTrace(net, trace + [x], events + [event])
    ensures Worlds(trace + [x]) == Worlds(trace) + [LogsAt(x)] && Acting(events + [event]) == Acting(events) + [event.i]
  {
    var trace', events' := trace + [x], events + [event];
    forall t | 0 <= t < |events'| ensures Follows(Standing(net, trace'[t]), trace'[t], trace'[t + 1], events'[t]) {
      if t < |events| { assert Follows(Standing(net, trace[t]), trace[t], trace[t + 1], events[t]); }
    }
  }

  lemma {:induction false} RunGrows(net: Net, run: seq<World>, acting: seq<nat>, w: World, i: nat)
    requires net.n > 0 && IsRun(net, run, acting) && Step(net, run[|acting|], w, i)
    ensures IsRun(net, run + [w], acting + [i])
  {
    var run', acting' := run + [w], acting + [i];
    forall t | 0 <= t < |acting'| ensures Step(net, run'[t], run'[t + 1], acting'[t]) {
      if t < |acting| { assert Step(net, run[t], run[t + 1], acting[t]); }
    }
  }

  /** A run stays one when fewer nodes are relied on. */
  lemma {:induction false} RunOfFewer(net: Net, run: seq<World>, acting: seq<nat>, i: nat)
    requires NetOk(net) && IsRun(net, run, acting)
    ensures NetOk(Less(net, i)) && IsRun(Less(net, i), run, acting)
  {
    var net' := Less(net, i);
    forall t | 0 <= t < |acting| ensures Step(net', run[t], run[t + 1], acting[t]) {
      assert Step(net, run[t], run[t + 1], acting[t]);
      assert ConfigOf(net', acting[t]) == ConfigOf(net, acting[t]);
    }
  }

  lemma Stutter(net: Net, w: World, i: nat)
    requires net.n > 0 && i < |w|
    ensures Step(net, w, w, i)
  {
    assert w == w[i := w[i]];
  }

  /** Once a node has relapsed it stands no more. */
  lemma {:induction false} StandingMoves(net: Net, x: Moment, x': Moment, event: Event)
    requires Follows(Standing(net, x), x, x', event)
    ensures var standing := Standing(net, x);
      Standing(net, x') == if event.i in standing.honest && x'[event.i].relapsed then Less(standing, event.i) else standing
  {
    var standing, i := Standing(net, x), event.i;
    hide AfterEvent;
    forall k ensures k in Standing(net, x').honest <==> k in standing.honest && !(k == i && x'[i].relapsed) {
      if k == i && i !in standing.honest { assert x'[i] == x[i]; }
    }
    if !(i in standing.honest && x'[i].relapsed) {
      assert Standing(net, x').honest == standing.honest;
    } else {
      assert Standing(net, x').honest == standing.honest - {i};
    }
  }

  /** One event more. */
  lemma {:induction false} Extends(net: Net, trace: seq<Moment>, events: seq<Event>, x: Moment, event: Event)
    requires IsTrace(net, trace, events)
    requires var standing := Standing(net, trace[|events|]);
      && NetOk(standing) && IsRun(standing, Worlds(trace), Acting(events))
      && Follows(standing, trace[|events|], x, event) && Step(standing, LogsAt(trace[|events|]), LogsAt(x), event.i)
    ensures IsTrace(net, trace + [x], events + [event])
    ensures IsRun(Standing(net, x), Worlds(trace + [x]), Acting(events + [event]))
  {
    hide IsRun, Step, Follows;
    var standing := Standing(net, trace[|events|]);
    TraceGrows(net, trace, events, x, event);
    RunGrows(standing, Worlds(trace), Acting(events), LogsAt(x), event.i);
    RunOfFewer(standing, Worlds(trace + [x]), Acting(events + [event]), event.i);
    StandingMoves(net, trace[|events|], x, event);
  }

  /** Handling an event is a step. */
  method Take(net: Net, nodes: seq<DBFT>, event: Event)
    requires Connected(net, nodes) && AllValid(net, nodes) && event.i in net.honest && event.i < net.n
    requires event.Message? ==> Vouched(net, Outs(nodes), event.msg)
    modifies nodes[event.i]
    ensures Step(net, old(Logs(nodes)), Logs(nodes), event.i) && Moved(nodes, event) && nodes[event.i].Sound()
  {
    hide Lawful, Moved, Vouched;
    ghost var i, w := event.i, Logs(nodes);
    Handle(net, nodes, event);
    SoundIsLawful(nodes[i].c, w[i], nodes[i].log);
    assert Logs(nodes) == w[i := nodes[i].log];
  }

  /** Messages that are not vouched for, and events of other nodes, change nothing. */
  method Proceed(net: Net, nodes: seq<DBFT>, event: Event)
    requires Connected(net, nodes) && AllValid(net, nodes) && event.i < net.n
    modifies nodes[event.i]
    ensures event.i in net.honest ==> nodes[event.i].Sound()
    ensures Step(net, LogsAt(old(Snapshot(nodes))), LogsAt(Snapshot(nodes)), event.i)
    ensures Follows(net, old(Snapshot(nodes)), Snapshot(nodes), event)
  {
    hide Step, AfterEvent, Vouched, StateOk, Kept, Formed, NetOk;
    ghost var x := Snapshot(nodes);
    SnapshotIs(nodes);
    if event.i in net.honest && (event.Message? ==> Vouched(net, Outs(nodes), event.msg)) {
      Take(net, nodes, event);
    } else {
      Stutter(net, Logs(nodes), event.i);
    }
    SnapshotIs(nodes);
    assert Snapshot(nodes) == x[event.i := Snapshot(nodes)[event.i]];
  }

  /** A node that relapses is not relied on any more. */
  method Advance(net: Net, nodes: seq<DBFT>, event: Event) returns (net': Net)
    requires Connected(net, nodes) && AllValid(net, nodes) && event.i < net.n
    modifies nodes[event.i]
    ensures Connected(net', nodes) && AllValid(net', nodes)
    ensures Step(net, LogsAt(old(Snapshot(nodes))), LogsAt(Snapshot(nodes)), event.i)
    ensures Follows(net, old(Snapshot(nodes)), Snapshot(nodes), event)
    ensures net' == if event.i in net.honest && nodes[event.i].relapsed then Less(net, event.i) else net
  {
    hide Step, Follows, StateOk, Kept;
    Proceed(net, nodes, event);
    net' := net;
    if event.i in net.honest && nodes[event.i].relapsed {
      net' := Less(net, event.i);
    }
  }

  lemma {:induction false} SnapshotIs(nodes: seq<DBFT>)
    ensures LogsAt(Snapshot(nodes)) == Logs(nodes) && OutsAt(Snapshot(nodes)) == Outs(nodes)
  {
  }

  /**
   Any number of nodes that have not started handle any events. Each event leads its node where it should,
   and all of it is a run of those nodes that have not relapsed in the end: if the others are not more than
   F, these have decided one block at a height, as far as its witness is valid.
   */
  method Execute(net: Net, nodes: seq<DBFT>, events: seq<Event>) returns (standing: Net, ghost trace: seq<Moment>)
    requires Connected(net, nodes) && AllValid(net, nodes)
    requires forall i :: 0 <= i < |nodes| ==> nodes[i].log == EmptyLog
    requires forall e :: e in events ==> e.i < net.n
    modifies nodes
    ensures IsTrace(net, trace, events) && trace[0] == old(Snapshot(nodes)) && trace[|events|] == Snapshot(nodes)
    ensures standing == Standing(net, Snapshot(nodes))
    ensures NetOk(standing) && IsRun(standing, Worlds(trace), Acting(events))
    ensures FewFaulty(standing) ==> Agreed(standing, nodes)
  {
    standing, trace := HandleAll(net, nodes, events);
    hide IsTrace, AllValid, IsRun;
    if FewFaulty(standing) {
      Agreement(standing, nodes, Worlds(trace), Acting(events));
    }
  }

  /** These events have been handled. */
  ghost predicate Progress(net: Net, nodes: seq<DBFT>, standing: Net, trace: seq<Moment>, events: seq<Event>)
    reads nodes
  {
    && Connected(standing, nodes) && AllValid(standing, nodes) && standing == Standing(net, Snapshot(nodes))
    && IsTrace(net, trace, events) && trace[|events|] == Snapshot(nodes)
    && IsRun(standing, Worlds(trace), Acting(events))
  }

  /** One event more. */
  method HandleOne(net: Net, nodes: seq<DBFT>, standing: Net, event: Event, ghost trace: seq<Moment>, ghost events: seq<Event>)
    returns (standing': Net)
    requires Progress(net, nodes, standing, trace, events) && event.i < standing.n
    modifies nodes[event.i]
    ensures Progress(net, nodes, standing', trace + [Snapshot(nodes)], events + [event])
  {
    hide Step, Follows, IsRun, IsTrace, AllValid, Standing;
    ghost var x := Snapshot(nodes);
    SameLength(net, trace, events);
    standing' := Advance(standing, nodes, event);
    Extends(net, trace, events, Snapshot(nodes), event);
    StandingMoves(net, x, Snapshot(nodes), event);
  }

  lemma SameLength(net: Net, trace: seq<Moment>, events: seq<Event>)
    requires IsTrace(net, trace, events)
    ensures |trace| == |events| + 1
  {
  }

  method HandleAll(net: Net, nodes: seq<DBFT>, events: seq<Event>) returns (standing: Net, ghost trace: seq<Moment>)
    requires Connected(net, nodes) && AllValid(net, nodes)
    requires Initial(net, Logs(nodes)) && forall e :: e in events ==> e.i < net.n
    modifies nodes
    ensures trace != [] && trace[0] == old(Snapshot(nodes)) && Progress(net, nodes, standing, trace, events)
  {
    standing, trace := net, [Snapshot(nodes)];
    AllStand(net, nodes);
    var k := 0;
    while k < |events|
      invariant k <= |events| && trace != [] && trace[0] == old(Snapshot(nodes)) && standing.n == net.n == |nodes|
      invariant Progress(net, nodes, standing, trace, events[..k])
    {
      hide Progress;
      standing := HandleOne(net, nodes, standing, events[k], trace, events[..k]);
      StillAll(net, nodes, standing, trace + [Snapshot(nodes)], events[..k] + [events[k]]);
      trace, k := trace + [Snapshot(nodes)], k + 1;
      assert events[..k] == events[..k - 1] + [events[k - 1]];
    }
    assert events[..k] == events;
  }

  lemma StillAll(net: Net, nodes: seq<DBFT>, standing: Net, trace: seq<Moment>, events: seq<Event>)
    requires Progress(net, nodes, standing, trace, events)
    ensures standing.n == net.n
  {
  }

  /** No two honest nodes have decided different certified blocks of one height. */
  ghost predicate Agreed(net: Net, nodes: seq<DBFT>)
    reads nodes
  {
    forall i, j, d, e :: i in net.honest && j in net.honest && i < |nodes| && j < |nodes|
      && d in nodes[i].log.decided && e in nodes[j].log.decided && Certified(d) && Certified(e) && d.header.height == e.header.height
      ==> d.header == e.header
  }

  lemma {:induction false} Agreement(net: Net, nodes: seq<DBFT>, run: seq<World>, acting: seq<nat>)
    requires Connected(net, nodes) && FewFaulty(net) && IsRun(net, run, acting) && run[|acting|] == Logs(nodes)
    ensures Agreed(net, nodes)
  {
    var t := |acting|;
    forall i, j, d, e | i in net.honest && j in net.honest && i < |nodes| && j < |nodes|
      && d in nodes[i].log.decided && e in nodes[j].log.decided && Certified(d) && Certified(e) && d.header.height == e.header.height
      ensures d.header == e.header
    {
      DecidedAgree(net, run, acting, t, i, d, t, j, e);
    }
  }

  lemma {:induction false} AllStand(net: Net, nodes: seq<DBFT>)
    requires Connected(net, nodes) && AllValid(net, nodes)
    ensures Standing(net, Snapshot(nodes)) == net && Worlds([Snapshot(nodes)]) == [Logs(nodes)]
  {
    assert LogsAt(Snapshot(nodes)) == Logs(nodes);
    forall i | i in net.honest ensures i < |nodes| && !nodes[i].relapsed { assert i in All(net.n); }
    assert Standing(net, Snapshot(nodes)).honest == net.honest;
  }

  // ---- whole networks ----

  /** All validators of a network, none of which has started. */
  method Assemble(net: Net) returns (nodes: seq<DBFT>)
    requires NetOk(net) && net.primaryOf == Schedule(net.n)
    ensures Connected(net, nodes) && AllValid(net, nodes) && fresh(nodes)
    ensures forall i :: 0 <= i < |nodes| ==> nodes[i].log == EmptyLog
  {
    nodes := [];
    while |nodes| < net.n
      invariant |nodes| <= net.n && fresh(nodes)
      invariant forall i, j :: 0 <= i < j < |nodes| ==> nodes[i] != nodes[j]
      invariant forall i :: 0 <= i < |nodes| ==> nodes[i].Valid() && nodes[i].c == ConfigOf(net, i) && nodes[i].log == EmptyLog
    {
      hide DBFT.Valid;
      var node := new DBFT(net.n, |nodes|, net.prevHash);
      nodes := nodes + [node];
    }
  }

  /** Any number of new nodes, whichever of them are honest, and any events: the blocks that are decided agree. */
  method Protocol(n: nat, honest: set<nat>, prevHash: nat -> nat, events: seq<Event>)
    returns (nodes: seq<DBFT>, standing: Net, ghost trace: seq<Moment>)
    requires n > 0 && honest <= All(n) && forall e :: e in events ==> e.i < n
    ensures fresh(nodes) && |nodes| == n && standing == Standing(Net(n, honest, prevHash, Schedule(n)), Snapshot(nodes))
    ensures IsTrace(Net(n, honest, prevHash, Schedule(n)), trace, events) && trace[|events|] == Snapshot(nodes)
    ensures IsRun(standing, Worlds(trace), Acting(events))
    ensures FewFaulty(standing) ==> Agreed(standing, nodes)
  {
    hide Connected, AllValid;
    var net := Net(n, honest, prevHash, Schedule(n));
    nodes := Assemble(net);
    standing, trace := Execute(net, nodes, events);
  }
}
