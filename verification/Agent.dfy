/**
 The endpoint agent: command execution (agents/shared/production-agent.ts), route and integrity reconciliation
 (src/agent/reconciler.ts) and the heartbeat loop that drains the queue. A failing adapter call leaves what it would
 have changed untouched; the calls before it in the same command have already taken effect.
 */
module Agent {
  import opened CanonicalJson
  import opened CommandQueue
  import opened Routes

  type Hash = string -> string

  datatype AgentState = AgentState(
    killSwitch: bool, dns: seq<string>, peers: Json, firewall: Json, routes: seq<Route>,
    files: map<string, string>, isolated: bool, revision: nat)

  /** Which adapter call of one execution throws: none, one before any effect, or the firewall call of a RECONCILE. */
  datatype Fate = Succeeds | FailsFirst | FailsAfterRoutes

  /** What the world supplies to executions: the payload as read back from `jsonb`, and the adapters' fate. */
  datatype Env = Env(wire: nat -> Payload, fate: nat -> Fate)

  predicate IntegrityOk(files: map<string, string>, expected: map<string, string>) {
    forall path :: path in expected ==> path in files && files[path] == expected[path]
  }

  function RoutesAfter(current: seq<Route>, desired: seq<Route>, h: Hash, lt: Order): seq<Route> {
    if h(Serial(current, lt)) != h(Serial(desired, lt)) then desired else current
  }

  /** `AgentReconciler.reconcile` with the acknowledgement it leads to. */
  function Reconciled(a: AgentState, p: Payload, fate: Fate, h: Hash, lt: Order): (AgentState, Details)
    requires p.Reconcile?
  {
    if p.revision < a.revision then (a, ReconcileEcho(true, a.revision))
    else if !IntegrityOk(a.files, p.integrity) || fate == FailsFirst then (a, Error)
    else
      var routed := a.(routes := RoutesAfter(a.routes, p.routes, h, lt));
      if fate == FailsAfterRoutes then (routed, Error)
      else (routed.(firewall := p.firewall, revision := p.revision), ReconcileEcho(false, p.revision))
  }

  /**
   A current RECONCILE succeeds exactly when its adapters do and the node holds every expected file with that very hash;
   a file that is missing or differs leaves the node as it was and is reported as a failure.
   */
  ghost predicate ReconcilesOnlyIntact(a: AgentState, p: Payload, fate: Fate, b: AgentState, details: Details)
    requires p.Reconcile?
  {
    && (details == ReconcileEcho(false, p.revision) <==> fate == Succeeds && p.integrity.Items <= a.files.Items)
    && (!(p.integrity.Items <= a.files.Items) ==> b == a && details == Error)
    && (details.ReconcileEcho? ==>
         b.firewall == p.firewall && b.revision == p.revision && !details.stale && details.revision == p.revision)
  }

  lemma IntegrityIsInclusion(files: map<string, string>, expected: map<string, string>)
    ensures IntegrityOk(files, expected) <==> expected.Items <= files.Items
  {
    if IntegrityOk(files, expected) {
      forall item | item in expected.Items
        ensures item in files.Items
      {
        assert item.0 in expected;
      }
    }
    if expected.Items <= files.Items {
      forall path | path in expected
        ensures path in files && files[path] == expected[path]
      {
        assert (path, expected[path]) in expected.Items;
      }
    }
  }

  lemma ReconcileIsGuarded(a: AgentState, p: Payload, fate: Fate, h: Hash, lt: Order)
    requires p.Reconcile? && p.revision >= a.revision
    ensures var (b, details) := Reconciled(a, p, fate, h, lt);
            ReconcilesOnlyIntact(a, p, fate, b, details)
  {
    IntegrityIsInclusion(a.files, p.integrity);
  }

  /** `ProductionAgent.execute`: the new node state and the acknowledgement sent. */
  function Executed(a: AgentState, p: Payload, fate: Fate, h: Hash, lt: Order): (AgentState, Details) {
    if p.Reconcile? then Reconciled(a, p, fate, h, lt)
    else if fate != Succeeds then (a, Error)
    else
      match p
      case SetKillSwitch(enabled) => (a.(killSwitch := enabled), KillSwitchEcho(enabled))
      case SetDns(servers) => (a.(dns := servers), DnsEcho(servers))
      case ApplyWireGuard(config) => (a.(peers := config), Done)
      case ApplyPeers(peers) => (a.(peers := peers), PeersEcho(h(Print(peers, lt))))
      case ApplyFirewall(commitId, rules) => (a.(firewall := rules), FirewallEcho(commitId, h(Print(rules, lt))))
      case RollbackFirewall(_) => (a.(firewall := Null), Done)
      case Quarantine(_) => (a.(isolated := true), Done)
      case Restore => (a.(isolated := false), Done)
      case RotateIdentityRequired => (a, Done)
      case _ => (a, Error)
  }

  /** When a command is reported as failed, and what a failed command may have changed. */
  lemma FailsExactlyWhen(a: AgentState, p: Payload, fate: Fate, h: Hash, lt: Order)
    ensures var (b, details) := Executed(a, p, fate, h, lt);
            && (details == Error <==>
                 if p.Reconcile? then
                   p.revision >= a.revision && (fate != Succeeds || !(p.integrity.Items <= a.files.Items))
                 else fate != Succeeds || p.Unsupported?)
            && (details == Error ==> b == a.(routes := b.routes))
            && (details == Error && b != a ==> p.Reconcile? && fate == FailsAfterRoutes)
  {
    if p.Reconcile? {
      IntegrityIsInclusion(a.files, p.integrity);
    }
  }

  class ProductionAgent {
    const node: string
    const hash: Hash
    const lt: Order
    var state: AgentState

    constructor (node: string, hash: Hash, lt: Order, initial: AgentState)
      ensures this.node == node && this.hash == hash && this.lt == lt && state == initial.(revision := 0)
    {
      this.node, this.hash, this.lt, state := node, hash, lt, initial.(revision := 0);
    }

    /** The integrity loop stops at the first file that differs; routes are replaced only when their hashes differ. */
    method ReconcileState(p: Payload, fate: Fate) returns (details: Details)
      requires p.Reconcile?
      modifies this
      ensures (state, details) == Reconciled(old(state), p, fate, hash, lt)
      ensures p.revision >= old(state.revision) ==>
        ReconcilesOnlyIntact(old(state), p, fate, state, details)
    {
      if p.revision < state.revision {
        return ReconcileEcho(true, state.revision);
      }
      ReconcileIsGuarded(state, p, fate, hash, lt);
      var paths := p.integrity.Keys;
      while paths != {}
        invariant paths <= p.integrity.Keys && state == old(state)
        invariant forall path :: path in p.integrity && path !in paths ==>
          path in state.files && state.files[path] == p.integrity[path]
        decreases paths
      {
        var path :| path in paths;
        if path !in state.files || state.files[path] != p.integrity[path] {
          return Error;
        }
        paths := paths - {path};
      }
      if fate == FailsFirst {
        return Error;
      }
      if hash(Serial(state.routes, lt)) != hash(Serial(p.routes, lt)) {
        state := state.(routes := p.routes);
      }
      if fate == FailsAfterRoutes {
        return Error;
      }
      state := state.(firewall := p.firewall, revision := p.revision);
      details := ReconcileEcho(false, p.revision);
    }

    method Execute(id: nat, p: Payload, fate: Fate, queue: PgCommandQueue)
      modifies this, queue
      ensures var (a, details) := Executed(old(state), p, fate, hash, lt);
              state == a && queue.Tables() == Acknowledged(old(queue.Tables()), id, details).0
    {
      var details := Error;
      if p.Reconcile? {
        details := ReconcileState(p, fate);
      } else if fate == Succeeds {
        match p
        case SetKillSwitch(enabled) => state := state.(killSwitch := enabled); details := KillSwitchEcho(enabled);
        case SetDns(servers) => state := state.(dns := servers); details := DnsEcho(servers);
        case ApplyWireGuard(config) => state := state.(peers := config); details := Done;
        case ApplyPeers(peers) => state := state.(peers := peers); details := PeersEcho(hash(Print(peers, lt)));
        case ApplyFirewall(commitId, rules) =>
          state := state.(firewall := rules);
          details := FirewallEcho(commitId, hash(Print(rules, lt)));
        case RollbackFirewall(_) => state := state.(firewall := Null); details := Done;
        case Quarantine(_) => state := state.(isolated := true); details := Done;
        case Restore => state := state.(isolated := false); details := Done;
        case RotateIdentityRequired => details := Done;
        case _ =>
      }
      var _ := queue.Acknowledge(id, details);
    }

    method RunBatch(queue: PgCommandQueue, batch: seq<nat>, env: Env)
      modifies this, queue
      ensures Pair(queue.Tables(), state) == RunAll(old(Pair(queue.Tables(), state)), batch, env, hash, lt)
    {
      for i := 0 to |batch|
        invariant Pair(queue.Tables(), state) == RunAll(old(Pair(queue.Tables(), state)), batch[..i], env, hash, lt)
      {
        assert batch[..i + 1][..i] == batch[..i];
        Execute(batch[i], env.wire(batch[i]), env.fate(batch[i]), queue);
      }
      assert batch[..|batch|] == batch;
    }

    /** The heartbeat loop until the queue is idle: fetch up to `limit` commands, execute them in order, repeat. */
    method Drain(queue: PgCommandQueue, limit: nat, env: Env)
      requires limit >= 1
      modifies this, queue
      ensures Pair(queue.Tables(), state) == RunPending(old(Pair(queue.Tables(), state)), node, env, hash, lt)
      ensures PendingIds(queue.commands, node) == []
    {
      var batch := queue.Pending(node, limit);
      while batch != []
        invariant batch == Take(PendingIds(queue.commands, node), limit)
        invariant RunPending(Pair(queue.Tables(), state), node, env, hash, lt)
               == RunPending(old(Pair(queue.Tables(), state)), node, env, hash, lt)
        decreases |PendingIds(queue.commands, node)|
      {
        BatchThenRest(Pair(queue.Tables(), state), node, limit, env, hash, lt);
        RunBatch(queue, batch, env);
        batch := queue.Pending(node, limit);
      }
    }
  }

  // ---------------------------------------------------------------- runs of one node

  /** The queue together with the state of one node. */
  datatype Pair = Pair(queue: Queue, agent: AgentState)

  function RunOne(s: Pair, id: nat, env: Env, h: Hash, lt: Order): Pair {
    var (a, details) := Executed(s.agent, env.wire(id), env.fate(id), h, lt);
    Pair(Acknowledged(s.queue, id, details).0, a)
  }

  function RunAll(s: Pair, ids: seq<nat>, env: Env, h: Hash, lt: Order): Pair {
    if ids == [] then s
    else RunOne(RunAll(s, ids[..|ids| - 1], env, h, lt), ids[|ids| - 1], env, h, lt)
  }

  /** This execution isolates the node or lets it back in. */
  predicate SetsIsolation(env: Env, id: nat) {
    (env.wire(id).Quarantine? || env.wire(id).Restore?) && env.fate(id) == Succeeds
  }

  lemma IsolationStep(s: Pair, id: nat, env: Env, h: Hash, lt: Order)
    ensures RunOne(s, id, env, h, lt).agent.isolated
         == if SetsIsolation(env, id) then env.wire(id).Quarantine? else s.agent.isolated
  {
  }

  /**
   A node is isolated exactly when the last successful QUARANTINE or RESTORE it executed, the `k`th command of the run,
   is a QUARANTINE; when there is none (`k` is 0), it stays as it was.
   */
  lemma {:induction false} IsolationFollowsLast(s: Pair, ids: seq<nat>, k: nat, env: Env, h: Hash, lt: Order)
    requires k <= |ids| && forall j :: k <= j < |ids| ==> !SetsIsolation(env, ids[j])
    requires k > 0 ==> SetsIsolation(env, ids[k - 1])
    ensures RunAll(s, ids, env, h, lt).agent.isolated
         == if k > 0 then env.wire(ids[k - 1]).Quarantine? else s.agent.isolated
  {
    if ids != [] {
      var n := |ids| - 1;
      IsolationStep(RunAll(s, ids[..n], env, h, lt), ids[n], env, h, lt);
      if k <= n {
        IsolationFollowsLast(s, ids[..n], k, env, h, lt);
      }
    }
  }

  ghost predicate NoneOf(ids: seq<nat>, env: Env, kinds: set<Kind>) {
    forall i :: 0 <= i < |ids| ==> env.wire(ids[i]).Kind() !in kinds
  }

  /** What a run leaves alone: each part of the node's configuration is changed by its own kinds of command only. */
  ghost predicate TouchesOnly(a: AgentState, b: AgentState, ids: seq<nat>, env: Env) {
    && b.files == a.files
    && (NoneOf(ids, env, {SET_KILL_SWITCH}) ==> b.killSwitch == a.killSwitch)
    && (NoneOf(ids, env, {SET_DNS}) ==> b.dns == a.dns)
    && (NoneOf(ids, env, {APPLY_PEERS, APPLY_WIREGUARD}) ==> b.peers == a.peers)
    && (NoneOf(ids, env, {APPLY_FIREWALL, ROLLBACK_FIREWALL, RECONCILE}) ==> b.firewall == a.firewall)
    && (NoneOf(ids, env, {RECONCILE}) ==> b.routes == a.routes && b.revision == a.revision)
    && (NoneOf(ids, env, {QUARANTINE, RESTORE}) ==> b.isolated == a.isolated)
  }

  lemma NoneOfPrefix(ids: seq<nat>, env: Env, kinds: set<Kind>)
    requires ids != [] && NoneOf(ids, env, kinds)
    ensures NoneOf(ids[..|ids| - 1], env, kinds) && env.wire(ids[|ids| - 1]).Kind() !in kinds
  {
  }

  lemma {:induction false} RunTouchesOnly(s: Pair, ids: seq<nat>, env: Env, h: Hash, lt: Order)
    ensures TouchesOnly(s.agent, RunAll(s, ids, env, h, lt).agent, ids, env)
  {
    if ids != [] {
      RunTouchesOnly(s, ids[..|ids| - 1], env, h, lt);
      forall kinds | NoneOf(ids, env, kinds)
        ensures NoneOf(ids[..|ids| - 1], env, kinds) && env.wire(ids[|ids| - 1]).Kind() !in kinds
      {
        NoneOfPrefix(ids, env, kinds);
      }
      StepTouchesOnly(RunAll(s, ids[..|ids| - 1], env, h, lt).agent, env.wire(ids[|ids| - 1]),
                      env.fate(ids[|ids| - 1]), h, lt);
    }
  }

  lemma StepTouchesOnly(a: AgentState, p: Payload, fate: Fate, h: Hash, lt: Order)
    ensures var b, kind := Executed(a, p, fate, h, lt).0, p.Kind();
            && b.files == a.files
            && (kind != SET_KILL_SWITCH ==> b.killSwitch == a.killSwitch)
            && (kind != SET_DNS ==> b.dns == a.dns)
            && (kind !in {APPLY_PEERS, APPLY_WIREGUARD} ==> b.peers == a.peers)
            && (kind !in {APPLY_FIREWALL, ROLLBACK_FIREWALL, RECONCILE} ==> b.firewall == a.firewall)
            && (kind != RECONCILE ==> b.routes == a.routes && b.revision == a.revision)
            && (kind !in {QUARANTINE, RESTORE} ==> b.isolated == a.isolated)
  {
  }

  lemma {:induction false} RunAllPending(s: Pair, node: string, todo: seq<nat>, k: nat, env: Env, h: Hash, lt: Order)
    requires todo == PendingIds(s.queue.commands, node) && k <= |todo|
    ensures PendingIds(RunAll(s, todo[..k], env, h, lt).queue.commands, node) == todo[k..]
  {
    if k == 0 {
      assert todo[..0] == [] && todo[0..] == todo;
    } else {
      RunAllPending(s, node, todo, k - 1, env, h, lt);
      RunNext(s, node, todo, k - 1, env, h, lt);
    }
  }

  /** Executing the next pending command extends the run and shortens the pending list by its head. */
  lemma RunNext(s: Pair, node: string, todo: seq<nat>, k: nat, env: Env, h: Hash, lt: Order)
    requires k < |todo| && PendingIds(RunAll(s, todo[..k], env, h, lt).queue.commands, node) == todo[k..]
    ensures RunAll(s, todo[..k + 1], env, h, lt) == RunOne(RunAll(s, todo[..k], env, h, lt), todo[k], env, h, lt)
    ensures PendingIds(RunAll(s, todo[..k + 1], env, h, lt).queue.commands, node) == todo[k + 1..]
  {
    var before := RunAll(s, todo[..k], env, h, lt);
    assert todo[..k + 1][..k] == todo[..k];
    assert todo[k..][0] == todo[k];
    PendingIsWaiting(before.queue.commands, node, todo[k]);
    assert todo[k] in todo[k..];
    AckedHeadLeavesTail(before.queue.commands, node, RunAll(s, todo[..k + 1], env, h, lt).queue.commands);
    assert todo[k..][1..] == todo[k + 1..];
  }

  lemma {:induction false} RunAllThen(s: Pair, first: seq<nat>, second: seq<nat>, env: Env, h: Hash, lt: Order)
    ensures RunAll(RunAll(s, first, env, h, lt), second, env, h, lt) == RunAll(s, first + second, env, h, lt)
  {
    if second == [] {
      assert first + second == first;
    } else {
      var n := |second| - 1;
      assert (first + second)[..|first + second| - 1] == first + second[..n];
      RunAllThen(s, first, second[..n], env, h, lt);
    }
  }

  /** Executing everything pending, in delivery order. */
  function RunPending(s: Pair, node: string, env: Env, h: Hash, lt: Order): Pair {
    RunAll(s, PendingIds(s.queue.commands, node), env, h, lt)
  }

  /** Fetching in batches makes no difference to what is executed, nor in which order. */
  lemma BatchThenRest(s: Pair, node: string, limit: nat, env: Env, h: Hash, lt: Order)
    requires limit >= 1
    ensures var todo := PendingIds(s.queue.commands, node);
            var after := RunAll(s, Take(todo, limit), env, h, lt);
            && RunPending(after, node, env, h, lt) == RunPending(s, node, env, h, lt)
            && (todo != [] ==> |PendingIds(after.queue.commands, node)| < |todo|)
  {
    var todo := PendingIds(s.queue.commands, node);
    var k := if limit < |todo| then limit else |todo|;
    assert Take(todo, limit) == todo[..k] && todo[..k] + todo[k..] == todo;
    RunAllPending(s, node, todo, k, env, h, lt);
    RunAllThen(s, todo[..k], todo[k..], env, h, lt);
  }
}
