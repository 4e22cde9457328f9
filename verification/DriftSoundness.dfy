/**
 What a drift check may conclude, over every interleaving of desired-state updates, commands issued by operators and
 services, corrections computed from any past desired row, and agents executing unacknowledged commands in any order
 with any adapter failures, restarting at any time, on nodes whose files may change at any time. Executing and
 acknowledging one command is one step.
 */
module DriftSoundness {
  import opened Agent
  import opened CanonicalJson
  import opened CommandQueue
  import opened MeshPlan
  import opened Reconciliation
  import opened Routes
  import opened StableSort
  import opened Wrappers

  /** The tables and the nodes; `history[n][r - 1]` is the desired row of node `n` at revision `r`. */
  datatype System = System(history: map<string, seq<Desired>>, queue: Queue, agents: map<string, AgentState>)

  datatype Event =
    | Upsert(node: string, routes: seq<Route>, dns: seq<string>, killSwitch: bool, integrity: map<string, string>)
    | Issue(node: string, payload: Payload, priority: int)
    | IssueReconcile(node: string, revision: nat, firewall: Json, priority: int)
    | Execute(id: nat, wire: Payload, fate: Fate)
    | Restarts(node: string)
    | Rewrites(node: string, files: map<string, string>)

  function Rows(s: System, node: string): seq<Desired> {
    if node in s.history then s.history[node] else []
  }

  /** Reading a payload back from `jsonb` may reorder object keys and changes nothing else. */
  ghost predicate Delivers(sent: Payload, wire: Payload) {
    match (sent, wire)
    case (ApplyPeers(p), ApplyPeers(w)) => Equivalent(p, w) && WellFormed(w)
    case (ApplyFirewall(c, p), ApplyFirewall(k, w)) => c == k && Equivalent(p, w) && WellFormed(w)
    case (Reconcile(r, routes, p, files), Reconcile(q, routes', w, files')) =>
      r == q && routes == routes' && files == files' && Equivalent(p, w) && WellFormed(w)
    case _ => sent == wire
  }

  /** No part of the program issues APPLY_WIREGUARD; RECONCILE is issued only from a desired row. */
  ghost predicate Enabled(s: System, e: Event) {
    match e
    case Upsert(_, routes, _, _, _) => ValidRoutes(routes)
    case Issue(_, payload, _) => !payload.Reconcile? && !payload.ApplyWireGuard?
    case IssueReconcile(node, revision, _, _) => 1 <= revision <= |Rows(s, node)|
    case Execute(id, wire, _) =>
      && id < |s.queue.commands| && !s.queue.commands[id].acked
      && s.queue.commands[id].node in s.agents && Delivers(s.queue.commands[id].payload, wire)
    case Restarts(node) => node in s.agents
    case Rewrites(node, _) => node in s.agents
  }

  /** `upsert`: every field is replaced and the revision grows by one, from 1. */
  function Upserted(rows: seq<Desired>, e: Event): seq<Desired>
    requires e.Upsert?
  {
    var revision := if rows == [] then 1 else rows[|rows| - 1].revision + 1;
    rows + [Desired(revision, e.routes, e.dns, e.killSwitch, e.integrity)]
  }

  ghost function Next(s: System, e: Event, h: Hash, lt: Order): System
    requires Enabled(s, e)
  {
    match e
    case Upsert(node, _, _, _, _) => s.(history := s.history[node := Upserted(Rows(s, node), e)])
    case Issue(node, payload, priority) => s.(queue := Enqueued(s.queue, node, payload, priority))
    case IssueReconcile(node, revision, firewall, priority) =>
      var row := Rows(s, node)[revision - 1];
      s.(queue := Enqueued(s.queue, node, Reconcile(revision, row.routes, firewall, row.integrity), priority))
    case Execute(id, wire, fate) =>
      var node := s.queue.commands[id].node;
      var (a, details) := Executed(s.agents[node], wire, fate, h, lt);
      s.(queue := Acknowledged(s.queue, id, details).0, agents := s.agents[node := a])
    case Restarts(node) => s.(agents := s.agents[node := Restarted(s.agents[node])])
    case Rewrites(node, files) => s.(agents := s.agents[node := s.agents[node].(files := files)])
  }

  /** A restart loses what the agent keeps in memory, its revision; the node's configuration stays. */
  function Restarted(a: AgentState): AgentState {
    a.(revision := 0)
  }

  ghost predicate Initial(s: System) {
    && s.history == map[] && s.queue == Queue([], [])
    && forall n :: n in s.agents ==> s.agents[n].revision == 0 && ValidRoutes(s.agents[n].routes)
  }

  ghost predicate IsRun(states: seq<System>, events: seq<Event>, h: Hash, lt: Order) {
    && |states| == |events| + 1 && Initial(states[0])
    && forall i :: 0 <= i < |events| ==>
         Enabled(states[i], events[i]) && states[i + 1] == Next(states[i], events[i], h, lt)
  }

  // ---------------------------------------------------------------- the invariant

  /** The last success of each kind of command still describes the node. */
  ghost predicate EchoesHold(acks: seq<Ack>, n: string, a: AgentState, h: Hash, lt: Order) {
    && (var d := LatestOk(acks, n, SET_DNS); d.Some? ==> d.value == DnsEcho(a.dns))
    && (var d := LatestOk(acks, n, SET_KILL_SWITCH); d.Some? ==> d.value == KillSwitchEcho(a.killSwitch))
    && (var d := LatestOk(acks, n, APPLY_PEERS);
        d.Some? ==> d.value == PeersEcho(h(Print(a.peers, lt))) && WellFormed(a.peers))
    && (var d := LatestOk(acks, n, RECONCILE);
        && (d.Some? ==> d.value.ReconcileEcho?)
        && (a.revision == 0 || (d.Some? && d.value.revision == a.revision)))
  }

  /** The agent still knows the revision it last reported, as it does until it restarts. */
  ghost predicate Remembers(acks: seq<Ack>, n: string, a: AgentState) {
    var d := LatestOk(acks, n, RECONCILE);
    if d.Some? then d.value.ReconcileEcho? && d.value.revision == a.revision else a.revision == 0
  }

  /** The most recent acknowledgement of a kind of command, successful or not. */
  function Latest(acks: seq<Ack>, n: string, kind: Kind): Option<Ack> {
    if acks == [] then None
    else
      var last := acks[|acks| - 1];
      if last.node == n && last.kind == kind then Some(last) else Latest(acks[..|acks| - 1], n, kind)
  }

  /** No RECONCILE of the node failed since its latest success. */
  predicate NoFailureSince(acks: seq<Ack>, n: string) {
    Latest(acks, n, RECONCILE).Some? && Latest(acks, n, RECONCILE).value.status == SUCCEEDED
  }

  lemma LatestAppend(acks: seq<Ack>, a: Ack, n: string, kind: Kind)
    ensures Latest(acks + [a], n, kind) == if a.node == n && a.kind == kind then Some(a) else Latest(acks, n, kind)
  {
    assert (acks + [a])[..|acks|] == acks;
  }

  /** While nothing failed since, the routes on the node are those of the revision it last reported applied. */
  ghost predicate RoutesReported(acks: seq<Ack>, n: string, a: AgentState, rows: seq<Desired>) {
    var d := LatestOk(acks, n, RECONCILE);
    && (d.Some? && d.value.ReconcileEcho? ==> d.value.revision <= |rows|)
    && (d.Some? && d.value.ReconcileEcho? && !d.value.stale ==> d.value.revision >= 1)
    && (d.Some? && d.value.ReconcileEcho? && !d.value.stale && NoFailureSince(acks, n) ==>
         multiset(a.routes) == multiset(rows[d.value.revision - 1].routes))
  }

  /** The routes on the node are those of some revision between the one it reports and the current one. */
  ghost predicate RoutesFrom(a: AgentState, rows: seq<Desired>, r: nat) {
    a.revision <= r <= |rows| && (r > 0 ==> multiset(a.routes) == multiset(rows[r - 1].routes))
  }

  ghost predicate RoutesHold(a: AgentState, rows: seq<Desired>) {
    ValidRoutes(a.routes) && exists r: nat :: RoutesFrom(a, rows, r)
  }

  ghost predicate RowsOk(rows: seq<Desired>) {
    forall i :: 0 <= i < |rows| ==> rows[i].revision == i + 1 && ValidRoutes(rows[i].routes)
  }

  ghost predicate CommandOk(c: Command, rows: seq<Desired>) {
    && !c.payload.ApplyWireGuard?
    && (c.payload.Reconcile? ==>
         && 1 <= c.payload.revision <= |rows|
         && c.payload.routes == rows[c.payload.revision - 1].routes
         && c.payload.integrity == rows[c.payload.revision - 1].integrity)
  }

  ghost predicate QueueOk(q: Queue) {
    forall a :: a in q.acks ==> a.command < |q.commands| && q.commands[a.command].acked
  }

  ghost predicate Inv(s: System, h: Hash, lt: Order) {
    && QueueOk(s.queue)
    && (forall n :: n in s.history ==> RowsOk(s.history[n]))
    && (forall i :: 0 <= i < |s.queue.commands| ==> CommandOk(s.queue.commands[i], Rows(s, s.queue.commands[i].node)))
    && (forall n :: n in s.agents ==> NodeOk(s.queue.acks, n, s.agents[n], Rows(s, n), h, lt))
  }

  ghost predicate NodeOk(acks: seq<Ack>, n: string, a: AgentState, rows: seq<Desired>, h: Hash, lt: Order) {
    EchoesHold(acks, n, a, h, lt) && RoutesHold(a, rows) && RoutesReported(acks, n, a, rows)
  }

  lemma InitialInv(s: System, h: Hash, lt: Order)
    requires Initial(s)
    ensures Inv(s, h, lt)
  {
    forall n | n in s.agents
      ensures NodeOk(s.queue.acks, n, s.agents[n], Rows(s, n), h, lt)
    {
      assert RoutesFrom(s.agents[n], Rows(s, n), 0);
    }
  }

  lemma UpsertInv(s: System, e: Event, h: Hash, lt: Order)
    requires Inv(s, h, lt) && Enabled(s, e) && e.Upsert?
    ensures Inv(Next(s, e, h, lt), h, lt)
  {
    var t := Next(s, e, h, lt);
    var rows := Rows(s, e.node);
    assert Rows(t, e.node) == Upserted(rows, e);
    forall i | 0 <= i < |t.queue.commands|
      ensures CommandOk(t.queue.commands[i], Rows(t, t.queue.commands[i].node))
    {
      assert CommandOk(s.queue.commands[i], Rows(s, s.queue.commands[i].node));
    }
    forall n | n in t.agents
      ensures NodeOk(t.queue.acks, n, t.agents[n], Rows(t, n), h, lt)
    {
      assert Rows(s, n) <= Rows(t, n);
      NewRowsKeep(s.queue.acks, n, s.agents[n], Rows(s, n), Rows(t, n), h, lt);
    }
  }

  lemma NewRowsKeep(
      acks: seq<Ack>, n: string, a: AgentState, rows: seq<Desired>, more: seq<Desired>, h: Hash, lt: Order)
    requires NodeOk(acks, n, a, rows, h, lt) && rows <= more
    ensures NodeOk(acks, n, a, more, h, lt)
  {
    var r: nat :| RoutesFrom(a, rows, r);
    assert RoutesFrom(a, more, r);
  }

  lemma RestartInv(s: System, n: string, h: Hash, lt: Order)
    requires Inv(s, h, lt) && n in s.agents
    ensures Inv(Next(s, Restarts(n), h, lt), h, lt)
  {
    var t := Next(s, Restarts(n), h, lt);
    forall i | 0 <= i < |t.queue.commands|
      ensures CommandOk(t.queue.commands[i], Rows(t, t.queue.commands[i].node))
    {
      assert CommandOk(s.queue.commands[i], Rows(s, s.queue.commands[i].node));
    }
    forall m | m in t.agents
      ensures NodeOk(t.queue.acks, m, t.agents[m], Rows(t, m), h, lt)
    {
      assert NodeOk(s.queue.acks, m, s.agents[m], Rows(s, m), h, lt);
      RestartKeepsRoutes(s.agents[m], Rows(s, m));
    }
  }

  lemma RestartKeepsRoutes(a: AgentState, rows: seq<Desired>)
    requires RoutesHold(a, rows)
    ensures RoutesHold(Restarted(a), rows)
  {
    var r: nat :| RoutesFrom(a, rows, r);
    assert RoutesFrom(Restarted(a), rows, r);
  }

  lemma RewriteInv(s: System, n: string, files: map<string, string>, h: Hash, lt: Order)
    requires Inv(s, h, lt) && n in s.agents
    ensures Inv(Next(s, Rewrites(n, files), h, lt), h, lt)
  {
    var t := Next(s, Rewrites(n, files), h, lt);
    forall i | 0 <= i < |t.queue.commands|
      ensures CommandOk(t.queue.commands[i], Rows(t, t.queue.commands[i].node))
    {
      assert CommandOk(s.queue.commands[i], Rows(s, s.queue.commands[i].node));
    }
    forall m | m in t.agents
      ensures NodeOk(t.queue.acks, m, t.agents[m], Rows(t, m), h, lt)
    {
      assert NodeOk(s.queue.acks, m, s.agents[m], Rows(s, m), h, lt);
      RewriteKeepsRoutes(s.agents[m], Rows(s, m), files);
    }
  }

  lemma RewriteKeepsRoutes(a: AgentState, rows: seq<Desired>, files: map<string, string>)
    requires RoutesHold(a, rows)
    ensures RoutesHold(a.(files := files), rows)
  {
    var r: nat :| RoutesFrom(a, rows, r);
    assert RoutesFrom(a.(files := files), rows, r);
  }

  lemma IssueInv(s: System, e: Event, h: Hash, lt: Order)
    requires Inv(s, h, lt) && Enabled(s, e) && (e.Issue? || e.IssueReconcile?)
    ensures Inv(Next(s, e, h, lt), h, lt)
  {
    var t := Next(s, e, h, lt);
    assert forall n :: Rows(t, n) == Rows(s, n);
    forall i | 0 <= i < |t.queue.commands|
      ensures CommandOk(t.queue.commands[i], Rows(t, t.queue.commands[i].node))
    {
      if i < |s.queue.commands| {
        assert t.queue.commands[i] == s.queue.commands[i];
      }
    }
  }

  // ---------------------------------------------------------------- executing one command

  ghost predicate Injective(h: Hash) {
    forall s, t :: h(s) == h(t) ==> s == t
  }

  lemma RoutesAfterAre(current: seq<Route>, desired: seq<Route>, h: Hash, lt: Order)
    requires Injective(h) && ValidRoutes(current) && ValidRoutes(desired)
    ensures multiset(RoutesAfter(current, desired, h, lt)) == multiset(desired)
    ensures ValidRoutes(RoutesAfter(current, desired, h, lt))
  {
    if h(Serial(current, lt)) == h(Serial(desired, lt)) {
      SameSerialSameRoutes(current, desired, lt);
    }
  }

  lemma ExecuteKeepsRoutes(a: AgentState, wire: Payload, fate: Fate, rows: seq<Desired>, h: Hash, lt: Order)
    requires Injective(h) && RowsOk(rows) && RoutesHold(a, rows)
    requires wire.Reconcile? ==> 1 <= wire.revision <= |rows| && wire.routes == rows[wire.revision - 1].routes
    ensures RoutesHold(Executed(a, wire, fate, h, lt).0, rows)
    ensures a.revision <= Executed(a, wire, fate, h, lt).0.revision <= |rows|
  {
    var b := Executed(a, wire, fate, h, lt).0;
    var r: nat :| RoutesFrom(a, rows, r);
    if wire.Reconcile? && b != a {
      RoutesAfterAre(a.routes, wire.routes, h, lt);
      assert RoutesFrom(b, rows, wire.revision);
    } else {
      assert RoutesFrom(b, rows, r);
    }
  }

  lemma ExecuteKeepsEchoes(
      acks: seq<Ack>, id: nat, n: string, a: AgentState, wire: Payload, fate: Fate, h: Hash, lt: Order)
    requires EchoesHold(acks, n, a, h, lt) && !wire.ApplyWireGuard?
    requires wire.ApplyPeers? ==> WellFormed(wire.peers)
    ensures var (b, details) := Executed(a, wire, fate, h, lt);
            EchoesHold(acks + [Ack(id, n, wire.Kind(), details.Status(), details)], n, b, h, lt)
  {
    var (b, details) := Executed(a, wire, fate, h, lt);
    var ack := Ack(id, n, wire.Kind(), details.Status(), details);
    LatestOkAppend(acks, ack, n, SET_DNS);
    LatestOkAppend(acks, ack, n, SET_KILL_SWITCH);
    LatestOkAppend(acks, ack, n, APPLY_PEERS);
    LatestOkAppend(acks, ack, n, RECONCILE);
  }

  lemma ExecuteKeepsMemory(
      acks: seq<Ack>, id: nat, n: string, a: AgentState, wire: Payload, fate: Fate, h: Hash, lt: Order)
    requires Remembers(acks, n, a)
    ensures var (b, details) := Executed(a, wire, fate, h, lt);
            Remembers(acks + [Ack(id, n, wire.Kind(), details.Status(), details)], n, b)
  {
    var details := Executed(a, wire, fate, h, lt).1;
    LatestOkAppend(acks, Ack(id, n, wire.Kind(), details.Status(), details), n, RECONCILE);
  }

  lemma SuccessReportsRoutes(acks: seq<Ack>, ack: Ack, n: string, b: AgentState, rows: seq<Desired>)
    requires ack.node == n && ack.kind == RECONCILE && ack.status == SUCCEEDED && ack.details.ReconcileEcho?
    requires ack.details.revision <= |rows|
    requires !ack.details.stale ==>
      1 <= ack.details.revision && multiset(b.routes) == multiset(rows[ack.details.revision - 1].routes)
    ensures RoutesReported(acks + [ack], n, b, rows)
  {
    LatestOkAppend(acks, ack, n, RECONCILE);
  }

  lemma FailureReportsNoRoutes(acks: seq<Ack>, ack: Ack, n: string, a: AgentState, b: AgentState, rows: seq<Desired>)
    requires RoutesReported(acks, n, a, rows) && ack.node == n && ack.kind == RECONCILE && ack.status != SUCCEEDED
    ensures RoutesReported(acks + [ack], n, b, rows)
  {
    LatestOkAppend(acks, ack, n, RECONCILE);
    LatestAppend(acks, ack, n, RECONCILE);
  }

  lemma ReconcileReportsRoutes(
      acks: seq<Ack>, id: nat, n: string, a: AgentState, wire: Payload, fate: Fate, rows: seq<Desired>, h: Hash,
      lt: Order)
    requires Injective(h) && RowsOk(rows) && RoutesReported(acks, n, a, rows) && ValidRoutes(a.routes)
    requires a.revision <= |rows| && wire.Reconcile?
    requires 1 <= wire.revision <= |rows| && wire.routes == rows[wire.revision - 1].routes
    ensures var (b, details) := Reconciled(a, wire, fate, h, lt);
            RoutesReported(acks + [Ack(id, n, RECONCILE, details.Status(), details)], n, b, rows)
  {
    var (b, details) := Reconciled(a, wire, fate, h, lt);
    var ack := Ack(id, n, RECONCILE, details.Status(), details);
    if details.Error? {
      FailureReportsNoRoutes(acks, ack, n, a, b, rows);
    } else {
      RoutesAfterAre(a.routes, wire.routes, h, lt);
      SuccessReportsRoutes(acks, ack, n, b, rows);
    }
  }

  /** An acknowledgement of another kind, with the routes as they were. */
  lemma OthersReportNoRoutes(acks: seq<Ack>, ack: Ack, n: string, a: AgentState, b: AgentState, rows: seq<Desired>)
    requires RoutesReported(acks, n, a, rows) && ack.kind != RECONCILE && b.routes == a.routes
    ensures RoutesReported(acks + [ack], n, b, rows)
  {
    LatestOkAppend(acks, ack, n, RECONCILE);
    LatestAppend(acks, ack, n, RECONCILE);
  }

  lemma ExecuteReportsRoutes(
      acks: seq<Ack>, id: nat, n: string, a: AgentState, wire: Payload, fate: Fate, rows: seq<Desired>, h: Hash,
      lt: Order)
    requires Injective(h) && RowsOk(rows) && RoutesReported(acks, n, a, rows) && ValidRoutes(a.routes)
    requires a.revision <= |rows|
    requires wire.Reconcile? ==> 1 <= wire.revision <= |rows| && wire.routes == rows[wire.revision - 1].routes
    ensures var (b, details) := Executed(a, wire, fate, h, lt);
            RoutesReported(acks + [Ack(id, n, wire.Kind(), details.Status(), details)], n, b, rows)
  {
    if wire.Reconcile? {
      ReconcileReportsRoutes(acks, id, n, a, wire, fate, rows, h, lt);
    } else {
      var (b, details) := Executed(a, wire, fate, h, lt);
      OthersReportNoRoutes(acks, Ack(id, n, wire.Kind(), details.Status(), details), n, a, b, rows);
    }
  }

  lemma OtherNodesKeep(acks: seq<Ack>, ack: Ack, n: string, a: AgentState, rows: seq<Desired>, h: Hash, lt: Order)
    requires NodeOk(acks, n, a, rows, h, lt) && ack.node != n
    ensures NodeOk(acks + [ack], n, a, rows, h, lt)
  {
    LatestAppend(acks, ack, n, RECONCILE);
    LatestOkAppend(acks, ack, n, SET_DNS);
    LatestOkAppend(acks, ack, n, SET_KILL_SWITCH);
    LatestOkAppend(acks, ack, n, APPLY_PEERS);
    LatestOkAppend(acks, ack, n, RECONCILE);
  }

  /** An unacknowledged command is acknowledged by exactly one new log entry. */
  lemma FreshAcknowledgement(q: Queue, id: nat, details: Details)
    requires QueueOk(q) && id < |q.commands| && !q.commands[id].acked
    ensures Acknowledged(q, id, details).0.commands == q.commands[id := q.commands[id].(acked := true)]
    ensures Acknowledged(q, id, details).0.acks
         == q.acks + [Ack(id, q.commands[id].node, q.commands[id].payload.Kind(), details.Status(), details)]
    ensures QueueOk(Acknowledged(q, id, details).0)
  {
  }

  lemma OwnNodeInv(
      acks: seq<Ack>, id: nat, c: Command, a: AgentState, wire: Payload, fate: Fate, rows: seq<Desired>, h: Hash,
      lt: Order)
    requires Injective(h) && RowsOk(rows) && NodeOk(acks, c.node, a, rows, h, lt)
    requires CommandOk(c, rows) && Delivers(c.payload, wire)
    ensures var (b, details) := Executed(a, wire, fate, h, lt);
            NodeOk(acks + [Ack(id, c.node, c.payload.Kind(), details.Status(), details)], c.node, b, rows, h, lt)
  {
    assert wire.Kind() == c.payload.Kind();
    var r: nat :| RoutesFrom(a, rows, r);
    ExecuteReportsRoutes(acks, id, c.node, a, wire, fate, rows, h, lt);
    ExecuteKeepsRoutes(a, wire, fate, rows, h, lt);
    ExecuteKeepsEchoes(acks, id, c.node, a, wire, fate, h, lt);
  }

  lemma ExecuteNodeInv(s: System, e: Event, n: string, h: Hash, lt: Order)
    requires Injective(h) && Inv(s, h, lt) && Enabled(s, e) && e.Execute? && n in s.agents
    ensures var t := Next(s, e, h, lt);
            NodeOk(t.queue.acks, n, t.agents[n], Rows(t, n), h, lt)
  {
    var c := s.queue.commands[e.id];
    var details := Executed(s.agents[c.node], e.wire, e.fate, h, lt).1;
    FreshAcknowledgement(s.queue, e.id, details);
    assert Rows(Next(s, e, h, lt), n) == Rows(s, n);
    if n == c.node {
      OwnNodeInv(s.queue.acks, e.id, c, s.agents[n], e.wire, e.fate, Rows(s, n), h, lt);
    } else {
      var ack := Ack(e.id, c.node, c.payload.Kind(), details.Status(), details);
      OtherNodesKeep(s.queue.acks, ack, n, s.agents[n], Rows(s, n), h, lt);
    }
  }

  lemma ExecuteQueueInv(s: System, e: Event, h: Hash, lt: Order)
    requires Inv(s, h, lt) && Enabled(s, e) && e.Execute?
    ensures var t := Next(s, e, h, lt);
            && QueueOk(t.queue)
            && t.history == s.history
            && forall i :: 0 <= i < |t.queue.commands| ==>
                 CommandOk(t.queue.commands[i], Rows(t, t.queue.commands[i].node))
  {
    var t := Next(s, e, h, lt);
    var c := s.queue.commands[e.id];
    FreshAcknowledgement(s.queue, e.id, Executed(s.agents[c.node], e.wire, e.fate, h, lt).1);
    forall i | 0 <= i < |t.queue.commands|
      ensures CommandOk(t.queue.commands[i], Rows(t, t.queue.commands[i].node))
    {
      assert CommandOk(s.queue.commands[i], Rows(s, s.queue.commands[i].node));
    }
  }

  lemma ExecuteInv(s: System, e: Event, h: Hash, lt: Order)
    requires Injective(h) && Inv(s, h, lt) && Enabled(s, e) && e.Execute?
    ensures Inv(Next(s, e, h, lt), h, lt)
  {
    var t := Next(s, e, h, lt);
    ExecuteQueueInv(s, e, h, lt);
    forall n | n in t.agents
      ensures NodeOk(t.queue.acks, n, t.agents[n], Rows(t, n), h, lt)
    {
      ExecuteNodeInv(s, e, n, h, lt);
    }
  }

  lemma StepInv(s: System, e: Event, h: Hash, lt: Order)
    requires Injective(h) && Inv(s, h, lt) && Enabled(s, e)
    ensures Inv(Next(s, e, h, lt), h, lt)
  {
    match e
    case Upsert(_, _, _, _, _) => UpsertInv(s, e, h, lt);
    case Execute(_, _, _) => ExecuteInv(s, e, h, lt);
    case Restarts(n) => RestartInv(s, n, h, lt);
    case Rewrites(n, files) => RewriteInv(s, n, files, h, lt);
    case _ => IssueInv(s, e, h, lt);
  }

  lemma {:induction false} RunInv(states: seq<System>, events: seq<Event>, i: nat, h: Hash, lt: Order)
    requires Injective(h) && IsRun(states, events, h, lt) && i < |states|
    ensures Inv(states[i], h, lt)
  {
    if i == 0 {
      InitialInv(states[0], h, lt);
    } else {
      RunInv(states, events, i - 1, h, lt);
      StepInv(states[i - 1], events[i - 1], h, lt);
    }
  }

  // ---------------------------------------------------------------- what "in sync" guarantees

  lemma ExecuteGrowsRevision(s: System, e: Event, h: Hash, lt: Order)
    requires Injective(h) && Inv(s, h, lt) && e.Execute? && Enabled(s, e)
    ensures var a := s.agents[s.queue.commands[e.id].node];
            a.revision <= Executed(a, e.wire, e.fate, h, lt).0.revision
  {
    var n := s.queue.commands[e.id].node;
    assert NodeOk(s.queue.acks, n, s.agents[n], Rows(s, n), h, lt);
    assert CommandOk(s.queue.commands[e.id], Rows(s, n));
    ExecuteKeepsRoutes(s.agents[n], e.wire, e.fate, Rows(s, n), h, lt);
  }

  lemma StepGrowsRevision(s: System, e: Event, n: string, h: Hash, lt: Order)
    requires Injective(h) && Inv(s, h, lt) && Enabled(s, e) && n in s.agents
    ensures n in Next(s, e, h, lt).agents
    ensures e != Restarts(n) ==> s.agents[n].revision <= Next(s, e, h, lt).agents[n].revision
    ensures e == Restarts(n) ==> Next(s, e, h, lt).agents[n] == s.agents[n].(revision := 0)
  {
    if e.Execute? {
      ExecuteGrowsRevision(s, e, h, lt);
    }
  }

  /** An agent's revision never passes the desired row's, and decreases only by restarting. */
  lemma RevisionsGrow(states: seq<System>, events: seq<Event>, i: nat, n: string, h: Hash, lt: Order)
    requires Injective(h) && IsRun(states, events, h, lt) && i < |events| && n in states[i].agents
    ensures n in states[i + 1].agents
    ensures states[i + 1].agents[n].revision <= |Rows(states[i + 1], n)|
    ensures states[i + 1].agents[n].revision < states[i].agents[n].revision ==> events[i] == Restarts(n)
    ensures events[i] == Restarts(n) ==> states[i + 1].agents[n].revision == 0
  {
    RunInv(states, events, i, h, lt);
    StepGrowsRevision(states[i], events[i], n, h, lt);
    StepInv(states[i], events[i], h, lt);
    var after := states[i + 1];
    assert NodeOk(after.queue.acks, n, after.agents[n], Rows(after, n), h, lt);
    var r: nat :| RoutesFrom(after.agents[n], Rows(after, n), r);
  }

  function Current(s: System, n: string): Desired
    requires Rows(s, n) != []
  {
    Rows(s, n)[|Rows(s, n)| - 1]
  }

  /** What makes a report of the routes reliable: nothing failed since, or the agent still remembers the revision. */
  predicate RoutesReliable(a: AgentState, acks: seq<Ack>, n: string, d: Desired) {
    NoFailureSince(acks, n) || a.revision == d.revision
  }

  /** Each dimension judged in sync for a desired row is as that row says on the node. */
  ghost predicate AppliedOn(a: AgentState, acks: seq<Ack>, d: Desired, inputs: Inputs, h: Hash, lt: Order) {
    && (InSync(DNS_SERVERS, acks, d, inputs, h, lt) ==> a.dns == d.dns)
    && (InSync(KILL_SWITCH, acks, d, inputs, h, lt) ==> a.killSwitch == d.killSwitch)
    && (InSync(PEER_TOPOLOGY, acks, d, inputs, h, lt) ==> Equivalent(a.peers, TargetPeers(inputs)))
    && (InSync(ROUTES_AND_INTEGRITY, acks, d, inputs, h, lt) && RoutesReliable(a, acks, inputs.node.id, d) ==>
         multiset(a.routes) == multiset(d.routes))
  }

  ghost predicate Applied(s: System, inputs: Inputs, h: Hash, lt: Order)
    requires inputs.node.id in s.agents && Rows(s, inputs.node.id) != []
  {
    AppliedOn(s.agents[inputs.node.id], s.queue.acks, Current(s, inputs.node.id), inputs, h, lt)
  }

  lemma SettingsApplied(a: AgentState, acks: seq<Ack>, d: Desired, inputs: Inputs, h: Hash, lt: Order)
    requires EchoesHold(acks, inputs.node.id, a, h, lt)
    ensures InSync(DNS_SERVERS, acks, d, inputs, h, lt) ==> a.dns == d.dns
    ensures InSync(KILL_SWITCH, acks, d, inputs, h, lt) ==> a.killSwitch == d.killSwitch
  {
  }

  lemma PeersApplied(a: AgentState, acks: seq<Ack>, d: Desired, inputs: Inputs, h: Hash, lt: Order)
    requires Injective(h) && TotalOrder(lt) && EchoesHold(acks, inputs.node.id, a, h, lt)
    requires InSync(PEER_TOPOLOGY, acks, d, inputs, h, lt)
    ensures Equivalent(a.peers, TargetPeers(inputs))
  {
    PeersJsonWellFormed(PlanFor(inputs.node, inputs.all, inputs.relay));
    CanonicalFaithful(a.peers, TargetPeers(inputs), lt);
  }

  lemma RoutesApplied(a: AgentState, acks: seq<Ack>, rows: seq<Desired>, inputs: Inputs, h: Hash, lt: Order)
    requires RoutesReported(acks, inputs.node.id, a, rows) && RoutesHold(a, rows) && RowsOk(rows) && rows != []
    requires InSync(ROUTES_AND_INTEGRITY, acks, rows[|rows| - 1], inputs, h, lt)
    requires RoutesReliable(a, acks, inputs.node.id, rows[|rows| - 1])
    ensures multiset(a.routes) == multiset(rows[|rows| - 1].routes)
  {
    var r: nat :| RoutesFrom(a, rows, r);
  }

  /**
   In every reachable state, restarts included, a dimension judged in sync is in sync on the node: the DNS servers, the
   kill switch and the peers applied are the desired ones, and so are the routes, if no RECONCILE failed since the one
   that reported them or the agent still remembers its revision. `RestartHidesRouteDrift` shows that this is needed.
   */
  lemma InSyncMeansApplied(
      states: seq<System>, events: seq<Event>, i: nat, inputs: Inputs, h: Hash, lt: Order)
    requires Injective(h) && TotalOrder(lt) && IsRun(states, events, h, lt) && i < |states|
    requires inputs.node.id in states[i].agents && Rows(states[i], inputs.node.id) != []
    ensures Applied(states[i], inputs, h, lt)
  {
    RunInv(states, events, i, h, lt);
    InSyncState(states[i], inputs, h, lt);
  }

  lemma InSyncState(s: System, inputs: Inputs, h: Hash, lt: Order)
    requires Injective(h) && TotalOrder(lt) && Inv(s, h, lt)
    requires inputs.node.id in s.agents && Rows(s, inputs.node.id) != []
    ensures Applied(s, inputs, h, lt)
  {
    NodeApplied(s.agents[inputs.node.id], s.queue.acks, Rows(s, inputs.node.id), inputs, h, lt);
  }

  lemma NodeApplied(a: AgentState, acks: seq<Ack>, rows: seq<Desired>, inputs: Inputs, h: Hash, lt: Order)
    requires Injective(h) && TotalOrder(lt) && NodeOk(acks, inputs.node.id, a, rows, h, lt)
    requires RowsOk(rows) && rows != []
    ensures AppliedOn(a, acks, rows[|rows| - 1], inputs, h, lt)
  {
    var d := rows[|rows| - 1];
    SettingsApplied(a, acks, d, inputs, h, lt);
    if InSync(PEER_TOPOLOGY, acks, d, inputs, h, lt) {
      PeersApplied(a, acks, d, inputs, h, lt);
    }
    if InSync(ROUTES_AND_INTEGRITY, acks, d, inputs, h, lt) && RoutesReliable(a, acks, inputs.node.id, d) {
      RoutesApplied(a, acks, rows, inputs, h, lt);
    }
  }

  // ---------------------------------------------------------------- checks are runs of these events

  lemma CheckDimensionKeepsInv(s: System, dim: Dimension, k: nat, inputs: Inputs, h: Hash, lt: Order)
    requires Injective(h) && Inv(s, h, lt) && k < |Rows(s, inputs.node.id)|
    ensures Inv(s.(queue := CheckDimension(dim, s.queue, Rows(s, inputs.node.id)[k], inputs, h, lt)), h, lt)
  {
    var d := Rows(s, inputs.node.id)[k];
    if !InSync(dim, s.queue.acks, d, inputs, h, lt) {
      var c := CorrectionFor(dim, d, inputs);
      assert d.revision == k + 1;
      var e := if dim == ROUTES_AND_INTEGRITY
               then IssueReconcile(inputs.node.id, k + 1, TargetRules(inputs), c.priority)
               else Issue(inputs.node.id, c.payload, c.priority);
      StepInv(s, e, h, lt);
    }
  }

  /** A whole `checkNode`, even one working from an outdated desired row, keeps the invariant. */
  lemma CheckKeepsInv(s: System, k: nat, inputs: Inputs, h: Hash, lt: Order)
    requires Injective(h) && Inv(s, h, lt) && k < |Rows(s, inputs.node.id)|
    ensures Inv(s.(queue := Checked(s.queue, Rows(s, inputs.node.id)[k], inputs, h, lt)), h, lt)
  {
    var d := Rows(s, inputs.node.id)[k];
    var s1 := s.(queue := CheckDimension(ROUTES_AND_INTEGRITY, s.queue, d, inputs, h, lt));
    var s2 := s.(queue := CheckDimension(DNS_SERVERS, s1.queue, d, inputs, h, lt));
    var s3 := s.(queue := CheckDimension(KILL_SWITCH, s2.queue, d, inputs, h, lt));
    var s4 := s.(queue := CheckDimension(PEER_TOPOLOGY, s3.queue, d, inputs, h, lt));
    CheckDimensionKeepsInv(s, ROUTES_AND_INTEGRITY, k, inputs, h, lt);
    CheckDimensionKeepsInv(s1, DNS_SERVERS, k, inputs, h, lt);
    CheckDimensionKeepsInv(s2, KILL_SWITCH, k, inputs, h, lt);
    CheckDimensionKeepsInv(s3, PEER_TOPOLOGY, k, inputs, h, lt);
    CheckDimensionKeepsInv(s4, POLICY_VERSION, k, inputs, h, lt);
  }

  // ---------------------------------------------------------------- agents that restart

  lemma ExecuteMemory(s: System, e: Event, n: string, h: Hash, lt: Order)
    requires QueueOk(s.queue) && e.Execute? && Enabled(s, e) && n in s.agents
    requires Remembers(s.queue.acks, n, s.agents[n])
    ensures Remembers(Next(s, e, h, lt).queue.acks, n, Next(s, e, h, lt).agents[n])
  {
    var c := s.queue.commands[e.id];
    var details := Executed(s.agents[c.node], e.wire, e.fate, h, lt).1;
    FreshAcknowledgement(s.queue, e.id, details);
    if c.node == n {
      assert e.wire.Kind() == c.payload.Kind();
      ExecuteKeepsMemory(s.queue.acks, e.id, n, s.agents[n], e.wire, e.fate, h, lt);
    } else {
      LatestOkAppend(s.queue.acks, Ack(e.id, c.node, c.payload.Kind(), details.Status(), details), n, RECONCILE);
    }
  }

  lemma MemoryStep(s: System, e: Event, n: string, h: Hash, lt: Order)
    requires QueueOk(s.queue) && Enabled(s, e) && n in s.agents && e != Restarts(n)
    requires Remembers(s.queue.acks, n, s.agents[n])
    ensures n in Next(s, e, h, lt).agents && Remembers(Next(s, e, h, lt).queue.acks, n, Next(s, e, h, lt).agents[n])
  {
    if e.Execute? {
      ExecuteMemory(s, e, n, h, lt);
    }
  }

  /** Once an agent's memory agrees with the log, as at first and after any success, only a restart changes that. */
  lemma {:induction false} RemembersUntilRestart(
      states: seq<System>, events: seq<Event>, j: nat, i: nat, n: string, h: Hash, lt: Order)
    requires Injective(h) && IsRun(states, events, h, lt) && j <= i < |states| && n in states[j].agents
    requires Remembers(states[j].queue.acks, n, states[j].agents[n])
    requires forall k :: j <= k < i ==> events[k] != Restarts(n)
    ensures n in states[i].agents && Remembers(states[i].queue.acks, n, states[i].agents[n])
    decreases i
  {
    if j < i {
      RemembersUntilRestart(states, events, j, i - 1, n, h, lt);
      RunInv(states, events, i - 1, h, lt);
      MemoryStep(states[i - 1], events[i - 1], n, h, lt);
    }
  }

  /** For an agent that has not restarted, routes judged in sync are the desired ones, whatever failed. */
  lemma InSyncWithoutRestart(states: seq<System>, events: seq<Event>, i: nat, inputs: Inputs, h: Hash, lt: Order)
    requires Injective(h) && TotalOrder(lt) && IsRun(states, events, h, lt) && i < |states|
    requires inputs.node.id in states[0].agents && forall k :: 0 <= k < i ==> events[k] != Restarts(inputs.node.id)
    requires Rows(states[i], inputs.node.id) != []
    requires InSync(ROUTES_AND_INTEGRITY, states[i].queue.acks, Current(states[i], inputs.node.id), inputs, h, lt)
    ensures inputs.node.id in states[i].agents
    ensures multiset(states[i].agents[inputs.node.id].routes) == multiset(Current(states[i], inputs.node.id).routes)
  {
    var n, s := inputs.node.id, states[i];
    RemembersUntilRestart(states, events, 0, i, n, h, lt);
    RunInv(states, events, i, h, lt);
    assert NodeOk(s.queue.acks, n, s.agents[n], Rows(s, n), h, lt);
    RememberedRoutesApplied(s.agents[n], s.queue.acks, Rows(s, n), inputs, h, lt);
  }

  lemma RememberedRoutesApplied(a: AgentState, acks: seq<Ack>, rows: seq<Desired>, inputs: Inputs, h: Hash, lt: Order)
    requires Remembers(acks, inputs.node.id, a) && RoutesReported(acks, inputs.node.id, a, rows)
    requires RoutesHold(a, rows) && RowsOk(rows) && rows != []
    requires InSync(ROUTES_AND_INTEGRITY, acks, rows[|rows| - 1], inputs, h, lt)
    ensures a.revision == |rows| && multiset(a.routes) == multiset(rows[|rows| - 1].routes)
  {
    RoutesApplied(a, acks, rows, inputs, h, lt);
  }

  // A run in which a restart hides that the routes are not the desired ones. An overlapping check that read the older
  // desired row queues its plan behind the newer one; the newer plan is applied, the agent restarts, and the older plan
  // then fails after replacing the routes. Every command executed is the next one the queue delivers.

  /** The plan while no policies are active. */
  const NO_RULES: Json := Arr([])

  function RowOf(revision: nat, routes: seq<Route>): Desired { Desired(revision, routes, [], false, map[]) }

  function PlanOf(revision: nat, routes: seq<Route>): Payload { Reconcile(revision, routes, NO_RULES, map[]) }

  function IssuedPlan(n: string, revision: nat, routes: seq<Route>): Command {
    Command(n, PlanOf(revision, routes), CORRECTION_PRIORITY, false)
  }

  /** The command is the first that the queue delivers to its node. */
  predicate IsNext(s: System, id: nat) {
    && id < |s.queue.commands|
    && var ids := PendingIds(s.queue.commands, s.queue.commands[id].node);
       ids != [] && ids[0] == id
  }

  ghost predicate InDeliveryOrder(states: seq<System>, events: seq<Event>) {
    |states| == |events| + 1 && forall k :: 0 <= k < |events| && events[k].Execute? ==> IsNext(states[k], events[k].id)
  }

  lemma MostUrgentIsNext(s: System, id: nat)
    requires id < |s.queue.commands| && Waiting(s.queue.commands, s.queue.commands[id].node, id)
    requires forall other: nat :: Waiting(s.queue.commands, s.queue.commands[id].node, other) && other != id ==>
      Urgency(Priorities(s.queue.commands))(id, other)
    ensures IsNext(s, id)
  {
    var commands, n := s.queue.commands, s.queue.commands[id].node;
    var ids := PendingIds(commands, n);
    PendingIsWaiting(commands, n, id);
    PendingIsWaiting(commands, n, ids[0]);
    PendingSorted(commands, n);
    var k :| 0 <= k < |ids| && ids[k] == id;
  }

  lemma ExtendRun(states: seq<System>, events: seq<Event>, e: Event, next: System, h: Hash, lt: Order)
    requires IsRun(states, events, h, lt) && Enabled(states[|events|], e) && next == Next(states[|events|], e, h, lt)
    requires InDeliveryOrder(states, events) && (e.Execute? ==> IsNext(states[|events|], e.id))
    ensures IsRun(states + [next], events + [e], h, lt) && InDeliveryOrder(states + [next], events + [e])
  {
    var states', events' := states + [next], events + [e];
    forall i | 0 <= i < |events'|
      ensures Enabled(states'[i], events'[i]) && states'[i + 1] == Next(states'[i], events'[i], h, lt)
      ensures events'[i].Execute? ==> IsNext(states'[i], events'[i].id)
    {
      if i < |events| {
        assert states'[i] == states[i] && states'[i + 1] == states[i + 1] && events'[i] == events[i];
      }
    }
  }

  /** Both revisions upserted and their plans queued, the newer first, before anything is executed. */
  function Queued(n: string, a: AgentState, old_: seq<Route>, new_: seq<Route>): System {
    System(map[n := [RowOf(1, old_), RowOf(2, new_)]],
           Queue([IssuedPlan(n, 2, new_), IssuedPlan(n, 1, old_)], []), map[n := a])
  }

  lemma UpsertsAreReachable(n: string, a: AgentState, old_: seq<Route>, new_: seq<Route>, h: Hash, lt: Order)
      returns (states: seq<System>, events: seq<Event>)
    requires ValidRoutes(old_) && ValidRoutes(new_) && ValidRoutes(a.routes) && a.revision == 0
    ensures IsRun(states, events, h, lt) && InDeliveryOrder(states, events)
    ensures states[|events|] == System(map[n := [RowOf(1, old_), RowOf(2, new_)]], Queue([], []), map[n := a])
  {
    var s0 := System(map[], Queue([], []), map[n := a]);
    states, events := [s0], [];
    var s1 := s0.(history := map[n := [RowOf(1, old_)]]);
    var e1 := Upsert(n, old_, [], false, map[]);
    assert Upserted(Rows(s0, n), e1) == [RowOf(1, old_)];
    assert Next(s0, e1, h, lt).history == s1.history;
    ExtendRun(states, events, e1, s1, h, lt);
    states, events := states + [s1], events + [e1];
    var s2 := s1.(history := map[n := [RowOf(1, old_), RowOf(2, new_)]]);
    var e2 := Upsert(n, new_, [], false, map[]);
    assert Upserted(Rows(s1, n), e2) == [RowOf(1, old_), RowOf(2, new_)];
    assert Next(s1, e2, h, lt).history == s2.history;
    ExtendRun(states, events, e2, s2, h, lt);
    states, events := states + [s2], events + [e2];
  }

  lemma QueuedIsReachable(n: string, a: AgentState, old_: seq<Route>, new_: seq<Route>, h: Hash, lt: Order)
      returns (states: seq<System>, events: seq<Event>)
    requires ValidRoutes(old_) && ValidRoutes(new_) && ValidRoutes(a.routes) && a.revision == 0
    ensures IsRun(states, events, h, lt) && InDeliveryOrder(states, events)
    ensures states[|events|] == Queued(n, a, old_, new_)
  {
    states, events := UpsertsAreReachable(n, a, old_, new_, h, lt);
    var s2 := states[|events|];
    var s3 := s2.(queue := Queue([IssuedPlan(n, 2, new_)], []));
    var e3 := IssueReconcile(n, 2, NO_RULES, CORRECTION_PRIORITY);
    assert Next(s2, e3, h, lt) == s3;
    ExtendRun(states, events, e3, s3, h, lt);
    states, events := states + [s3], events + [e3];
    var s4 := Queued(n, a, old_, new_);
    var e4 := IssueReconcile(n, 1, NO_RULES, CORRECTION_PRIORITY);
    assert Next(s3, e4, h, lt) == s4;
    ExtendRun(states, events, e4, s4, h, lt);
    states, events := states + [s4], events + [e4];
  }

  /** The queue's first command: the newer plan, which is applied and reported. */
  lemma NewerPlanSucceeds(a: AgentState, new_: seq<Route>, h: Hash, lt: Order)
    requires Injective(h) && ValidRoutes(new_) && ValidRoutes(a.routes) && a.revision == 0
    ensures var (b, details) := Executed(a, PlanOf(2, new_), Succeeds, h, lt);
            details == ReconcileEcho(false, 2) && ValidRoutes(b.routes)
  {
    RoutesAfterAre(a.routes, new_, h, lt);
  }

  lemma NewerApplied(n: string, a: AgentState, old_: seq<Route>, new_: seq<Route>, h: Hash, lt: Order)
    requires Injective(h) && ValidRoutes(new_) && ValidRoutes(a.routes) && a.revision == 0
    ensures var s, e := Queued(n, a, old_, new_), Execute(0, PlanOf(2, new_), Succeeds);
            && Enabled(s, e) && Next(s, e, h, lt).history == s.history && n in Next(s, e, h, lt).agents
            && Next(s, e, h, lt).queue.acks == [Ack(0, n, RECONCILE, SUCCEEDED, ReconcileEcho(false, 2))]
            && LatestOk(Next(s, e, h, lt).queue.acks, n, RECONCILE) == Some(ReconcileEcho(false, 2))
            && Next(s, e, h, lt).queue.commands == [IssuedPlan(n, 2, new_).(acked := true), IssuedPlan(n, 1, old_)]
            && ValidRoutes(Next(s, e, h, lt).agents[n].routes)
  {
    NewerPlanSucceeds(a, new_, h, lt);
    FreshAcknowledgement(Queued(n, a, old_, new_).queue, 0, ReconcileEcho(false, 2));
  }

  lemma NewerIsNext(n: string, a: AgentState, old_: seq<Route>, new_: seq<Route>)
    ensures IsNext(Queued(n, a, old_, new_), 0)
  {
    MostUrgentIsNext(Queued(n, a, old_, new_), 0);
  }

  lemma OlderPlanFails(a: AgentState, old_: seq<Route>, h: Hash, lt: Order)
    requires Injective(h) && ValidRoutes(old_) && ValidRoutes(a.routes) && a.revision == 0
    ensures var (b, details) := Executed(a, PlanOf(1, old_), FailsAfterRoutes, h, lt);
            details == Error && multiset(b.routes) == multiset(old_)
  {
    RoutesAfterAre(a.routes, old_, h, lt);
  }

  /** After a restart the older plan is next; it replaces the routes, fails, and leaves the report as it was. */
  lemma OlderFails(s: System, n: string, old_: seq<Route>, first: Command, h: Hash, lt: Order)
    requires Injective(h) && ValidRoutes(old_) && n in s.agents && ValidRoutes(s.agents[n].routes)
    requires s.agents[n].revision == 0 && first.acked && s.queue.commands == [first, IssuedPlan(n, 1, old_)]
    requires forall a :: a in s.queue.acks ==> a.command != 1
    ensures var e := Execute(1, PlanOf(1, old_), FailsAfterRoutes);
            && Enabled(s, e) && Next(s, e, h, lt).history == s.history && n in Next(s, e, h, lt).agents
            && LatestOk(Next(s, e, h, lt).queue.acks, n, RECONCILE) == LatestOk(s.queue.acks, n, RECONCILE)
            && multiset(Next(s, e, h, lt).agents[n].routes) == multiset(old_)
  {
    OlderPlanFails(s.agents[n], old_, h, lt);
    assert Next(s, Execute(1, PlanOf(1, old_), FailsAfterRoutes), h, lt).queue.acks
        == s.queue.acks + [Ack(1, n, RECONCILE, FAILED, Error)];
    LatestOkAppend(s.queue.acks, Ack(1, n, RECONCILE, FAILED, Error), n, RECONCILE);
  }

  lemma OlderIsNext(s: System, n: string, old_: seq<Route>, first: Command)
    requires first.acked && s.queue.commands == [first, IssuedPlan(n, 1, old_)]
    ensures IsNext(s, 1)
  {
    MostUrgentIsNext(s, 1);
  }

  /** So after a restart routes can be judged in sync while any others are on the node. */
  lemma RestartHidesRouteDrift(
      inputs: Inputs, a: AgentState, old_: seq<Route>, new_: seq<Route>, h: Hash, lt: Order)
      returns (states: seq<System>, events: seq<Event>)
    requires Injective(h) && ValidRoutes(old_) && ValidRoutes(new_) && ValidRoutes(a.routes) && a.revision == 0
    ensures IsRun(states, events, h, lt) && InDeliveryOrder(states, events)
    ensures var s, n := states[|events|], inputs.node.id;
            && n in s.agents && Rows(s, n) == [RowOf(1, old_), RowOf(2, new_)]
            && InSync(ROUTES_AND_INTEGRITY, s.queue.acks, Current(s, n), inputs, h, lt)
            && multiset(s.agents[n].routes) == multiset(old_)
  {
    var n := inputs.node.id;
    states, events := QueuedIsReachable(n, a, old_, new_, h, lt);
    var e5, e7 := Execute(0, PlanOf(2, new_), Succeeds), Execute(1, PlanOf(1, old_), FailsAfterRoutes);
    NewerApplied(n, a, old_, new_, h, lt);
    NewerIsNext(n, a, old_, new_);
    var s5 := Next(Queued(n, a, old_, new_), e5, h, lt);
    ExtendRun(states, events, e5, s5, h, lt);
    states, events := states + [s5], events + [e5];
    var s6 := Next(s5, Restarts(n), h, lt);
    ExtendRun(states, events, Restarts(n), s6, h, lt);
    states, events := states + [s6], events + [Restarts(n)];
    var applied := IssuedPlan(n, 2, new_).(acked := true);
    OlderFails(s6, n, old_, applied, h, lt);
    OlderIsNext(s6, n, old_, applied);
    var s7 := Next(s6, e7, h, lt);
    ExtendRun(states, events, e7, s7, h, lt);
    states, events := states + [s7], events + [e7];
  }
}
