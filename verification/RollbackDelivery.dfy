/**
 What a rollback does to a node that has not caught up (src/infrastructure/pg-policy-enforcer.ts and the delivery order
 of services/mesh-controller/pg-command-queue.ts): ROLLBACK_FIREWALL is issued with priority 200, APPLY_FIREWALL with
 100 or 150 and RECONCILE, which carries a firewall plan too, with 150. A rollback so overtakes the very commands it is
 meant to undo.
 */
module RollbackDelivery {
  import opened Agent
  import opened CanonicalJson
  import opened CommandQueue
  import opened PolicyEnforcer
  import opened Reconciliation
  import opened Wrappers
  import Policy

  // ---------------------------------------------------------------- which rules a run leaves in force

  /** A RECONCILE that is applied unless its revision is stale. */
  predicate SoundPlan(a: AgentState, p: Payload, fate: Fate) {
    p.Reconcile? && fate == Succeeds && IntegrityOk(a.files, p.integrity)
  }

  predicate SoundAt(a: AgentState, env: Env, ids: seq<nat>, j: nat)
    requires j < |ids|
  {
    SoundPlan(a, env.wire(ids[j]), env.fate(ids[j]))
  }

  /**
   Whether the command at a position of a run changes the firewall, judged from the node's state before the run: it
   applies or rolls back and succeeds, or it is a sound plan as recent as the node's revision and every sound plan
   before it.
   */
  predicate TakesEffect(a: AgentState, env: Env, ids: seq<nat>, i: nat)
    requires i < |ids|
  {
    var p, fate := env.wire(ids[i]), env.fate(ids[i]);
    || (p.ApplyFirewall? && fate == Succeeds)
    || (p.RollbackFirewall? && fate == Succeeds)
    || (SoundPlan(a, p, fate) && p.revision >= a.revision
        && forall j :: 0 <= j < i && SoundAt(a, env, ids, j) ==> env.wire(ids[j]).revision <= p.revision)
  }

  /** The rules a firewall command puts in force; none for a rollback. */
  function RulesOf(p: Payload): Json {
    match p
    case ApplyFirewall(_, rules) => rules
    case Reconcile(_, _, plan, _) => plan
    case _ => Null
  }

  /** The revision an agent remembers: the greatest of its own and those of the sound plans it was given. */
  ghost predicate Remembered(revision: nat, a: AgentState, env: Env, ids: seq<nat>, k: nat)
    requires k <= |ids|
  {
    && revision >= a.revision
    && (forall j :: 0 <= j < k && SoundAt(a, env, ids, j) ==> env.wire(ids[j]).revision <= revision)
    && (revision == a.revision
        || exists j :: 0 <= j < k && SoundAt(a, env, ids, j) && env.wire(ids[j]).revision == revision)
  }

  lemma StepChanges(a: AgentState, p: Payload, fate: Fate, h: Hash, lt: Order)
    ensures var b := Executed(a, p, fate, h, lt).0;
            && b.files == a.files
            && (SoundPlan(a, p, fate) && p.revision >= a.revision ==>
                  b.revision == p.revision && b.firewall == p.firewall)
            && (!(SoundPlan(a, p, fate) && p.revision >= a.revision) ==> b.revision == a.revision)
            && (p.ApplyFirewall? && fate == Succeeds ==> b.firewall == p.rules)
            && (p.RollbackFirewall? && fate == Succeeds ==> b.firewall == Null)
  {
  }

  lemma StepKeepsFirewall(a: AgentState, p: Payload, fate: Fate, h: Hash, lt: Order)
    requires !(SoundPlan(a, p, fate) && p.revision >= a.revision)
    requires !((p.ApplyFirewall? || p.RollbackFirewall?) && fate == Succeeds)
    ensures Executed(a, p, fate, h, lt).0.firewall == a.firewall
  {
  }

  lemma RememberedStep(a: AgentState, t: AgentState, env: Env, ids: seq<nat>, k: nat, h: Hash, lt: Order)
    requires k < |ids| && t.files == a.files && Remembered(t.revision, a, env, ids, k)
    ensures var u := Executed(t, env.wire(ids[k]), env.fate(ids[k]), h, lt).0;
            u.files == a.files && Remembered(u.revision, a, env, ids, k + 1)
  {
    var p, fate := env.wire(ids[k]), env.fate(ids[k]);
    StepChanges(t, p, fate, h, lt);
    assert SoundAt(a, env, ids, k) <==> SoundPlan(t, p, fate);
  }

  lemma EffectStep(a: AgentState, t: AgentState, env: Env, ids: seq<nat>, k: nat, h: Hash, lt: Order)
    requires k < |ids| && t.files == a.files && Remembered(t.revision, a, env, ids, k)
    ensures Executed(t, env.wire(ids[k]), env.fate(ids[k]), h, lt).0.firewall
         == if TakesEffect(a, env, ids, k) then RulesOf(env.wire(ids[k])) else t.firewall
  {
    var p, fate := env.wire(ids[k]), env.fate(ids[k]);
    StepChanges(t, p, fate, h, lt);
    if !TakesEffect(a, env, ids, k) {
      StepKeepsFirewall(t, p, fate, h, lt);
    }
  }

  lemma {:induction false} RunRemembers(s: Pair, ids: seq<nat>, k: nat, env: Env, h: Hash, lt: Order)
    requires k <= |ids|
    ensures var t := RunAll(s, ids[..k], env, h, lt).agent;
            t.files == s.agent.files && Remembered(t.revision, s.agent, env, ids, k)
  {
    if k == 0 {
      assert ids[..0] == [];
    } else {
      RunRemembers(s, ids, k - 1, env, h, lt);
      assert ids[..k][..k - 1] == ids[..k - 1];
      RememberedStep(s.agent, RunAll(s, ids[..k - 1], env, h, lt).agent, env, ids, k - 1, h, lt);
    }
  }

  lemma RunStepFirewall(s: Pair, ids: seq<nat>, k: nat, env: Env, h: Hash, lt: Order)
    requires k < |ids|
    ensures RunAll(s, ids[..k + 1], env, h, lt).agent.firewall
         == if TakesEffect(s.agent, env, ids, k) then RulesOf(env.wire(ids[k]))
            else RunAll(s, ids[..k], env, h, lt).agent.firewall
  {
    RunRemembers(s, ids, k, env, h, lt);
    assert ids[..k + 1][..k] == ids[..k];
    EffectStep(s.agent, RunAll(s, ids[..k], env, h, lt).agent, env, ids, k, h, lt);
  }

  /** The rules in force after a run are those of the last command in it that takes effect. */
  lemma {:induction false} LastEffectInForce(s: Pair, ids: seq<nat>, k: nat, m: nat, env: Env, h: Hash, lt: Order)
    requires m < k <= |ids| && TakesEffect(s.agent, env, ids, m)
    requires forall j :: m < j < k ==> !TakesEffect(s.agent, env, ids, j)
    ensures RunAll(s, ids[..k], env, h, lt).agent.firewall == RulesOf(env.wire(ids[m]))
    decreases k
  {
    RunStepFirewall(s, ids, k - 1, env, h, lt);
    if m < k - 1 {
      LastEffectInForce(s, ids, k - 1, m, env, h, lt);
    }
  }

  lemma LastEffect(a: AgentState, env: Env, ids: seq<nat>, i: nat) returns (m: nat)
    requires i < |ids| && TakesEffect(a, env, ids, i)
    ensures i <= m < |ids| && TakesEffect(a, env, ids, m)
    ensures forall j :: m < j < |ids| ==> !TakesEffect(a, env, ids, j)
  {
    m := |ids| - 1;
    while !TakesEffect(a, env, ids, m)
      invariant i <= m < |ids| && forall j :: m < j < |ids| ==> !TakesEffect(a, env, ids, j)
      decreases m
    {
      m := m - 1;
    }
  }

  // ---------------------------------------------------------------- the delivery order

  predicate Rules(p: Payload) { p.ApplyFirewall? || p.Reconcile? }

  /** The priorities the services issue firewall commands with. */
  ghost predicate Issued(commands: seq<Command>) {
    forall id :: 0 <= id < |commands| ==> IssuedOk(commands[id])
  }

  predicate IssuedOk(c: Command) {
    && (Rules(c.payload) ==> c.priority < ROLLBACK_PRIORITY)
    && (c.payload.RollbackFirewall? ==> c.priority == ROLLBACK_PRIORITY)
  }

  /** Every waiting rollback is delivered before every waiting command that carries rules. */
  lemma PendingRollbacksFirst(commands: seq<Command>, node: string, i: nat, j: nat)
    requires Issued(commands)
    requires var ids := PendingIds(commands, node);
             i < |ids| && j < |ids| && Waiting(commands, node, ids[i]) && Waiting(commands, node, ids[j])
             && commands[ids[i]].payload.RollbackFirewall? && Rules(commands[ids[j]].payload)
    ensures i < j
  {
    var ids := PendingIds(commands, node);
    PendingSorted(commands, node);
    assert IssuedOk(commands[ids[i]]) && IssuedOk(commands[ids[j]]);
    assert Urgency(Priorities(commands))(ids[i], ids[j]);
  }

  // ---------------------------------------------------------------- when a rollback sticks

  /** What is waiting arrives as the kind it was issued as, and rules are never the absence of rules. */
  ghost predicate ArrivesAs(commands: seq<Command>, node: string, env: Env) {
    forall id: nat :: Waiting(commands, node, id) ==>
      && env.wire(id).Kind() == commands[id].payload.Kind()
      && (Rules(env.wire(id)) ==> RulesOf(env.wire(id)) != Null)
  }

  ghost predicate RollbackWaits(commands: seq<Command>, node: string, env: Env) {
    exists id: nat :: Waiting(commands, node, id) && env.wire(id).RollbackFirewall? && env.fate(id) == Succeeds
  }

  /** An application is still waiting and will succeed. */
  ghost predicate ApplyWaits(commands: seq<Command>, node: string, env: Env) {
    exists id: nat :: Waiting(commands, node, id) && env.wire(id).ApplyFirewall? && env.fate(id) == Succeeds
  }

  /** A plan is still waiting that the agent will refuse neither as stale nor for its files, and that will succeed. */
  ghost predicate PlanWaits(commands: seq<Command>, node: string, a: AgentState, env: Env) {
    exists id: nat ::
      Waiting(commands, node, id) && SoundPlan(a, env.wire(id), env.fate(id)) && env.wire(id).revision >= a.revision
  }

  lemma PositionOf(commands: seq<Command>, node: string, id: nat) returns (i: nat)
    requires Waiting(commands, node, id)
    ensures i < |PendingIds(commands, node)| && PendingIds(commands, node)[i] == id
  {
    PendingIsWaiting(commands, node, id);
    i :| 0 <= i < |PendingIds(commands, node)| && PendingIds(commands, node)[i] == id;
  }

  lemma PositionWaits(commands: seq<Command>, node: string, i: nat)
    requires i < |PendingIds(commands, node)|
    ensures Waiting(commands, node, PendingIds(commands, node)[i])
  {
    PendingIsWaiting(commands, node, PendingIds(commands, node)[i]);
  }

  /** If some waiting plan is acceptable, the first such plan delivered takes effect. */
  lemma SomePlanTakesEffect(a: AgentState, env: Env, ids: seq<nat>, i: nat) returns (m: nat)
    requires i < |ids| && SoundAt(a, env, ids, i) && env.wire(ids[i]).revision >= a.revision
    ensures m <= i && TakesEffect(a, env, ids, m) && env.wire(ids[m]).Reconcile?
  {
    m := 0;
    while !(SoundAt(a, env, ids, m) && env.wire(ids[m]).revision >= a.revision)
      invariant m <= i
      invariant forall j :: 0 <= j < m ==> !(SoundAt(a, env, ids, j) && env.wire(ids[j]).revision >= a.revision)
      decreases i - m
    {
      m := m + 1;
    }
  }

  /** A command with rules that takes effect outlasts every rollback. */
  lemma RulesOutlastRollbacks(s: Pair, node: string, i: nat, env: Env, h: Hash, lt: Order) returns (m: nat)
    requires Issued(s.queue.commands) && ArrivesAs(s.queue.commands, node, env)
    requires var ids := PendingIds(s.queue.commands, node);
             i < |ids| && TakesEffect(s.agent, env, ids, i) && Rules(env.wire(ids[i]))
    ensures var ids := PendingIds(s.queue.commands, node);
            && i <= m < |ids| && TakesEffect(s.agent, env, ids, m) && Rules(env.wire(ids[m]))
            && (forall j :: m < j < |ids| ==> !TakesEffect(s.agent, env, ids, j))
            && RunPending(s, node, env, h, lt).agent.firewall == RulesOf(env.wire(ids[m]))
  {
    var commands := s.queue.commands;
    var ids := PendingIds(commands, node);
    m := LastEffect(s.agent, env, ids, i);
    PositionWaits(commands, node, i);
    PositionWaits(commands, node, m);
    if env.wire(ids[m]).RollbackFirewall? {
      PendingRollbacksFirst(commands, node, m, i);
    }
    assert ids[..|ids|] == ids;
    LastEffectInForce(s, ids, |ids|, m, env, h, lt);
  }

  lemma OnlyRollbacksLeft(s: Pair, node: string, env: Env, h: Hash, lt: Order)
    requires RollbackWaits(s.queue.commands, node, env)
    requires !ApplyWaits(s.queue.commands, node, env) && !PlanWaits(s.queue.commands, node, s.agent, env)
    ensures RunPending(s, node, env, h, lt).agent.firewall == Null
  {
    var commands := s.queue.commands;
    var ids := PendingIds(commands, node);
    var id: nat :| Waiting(commands, node, id) && env.wire(id).RollbackFirewall? && env.fate(id) == Succeeds;
    var i := PositionOf(commands, node, id);
    var m := LastEffect(s.agent, env, ids, i);
    PositionWaits(commands, node, m);
    assert ids[..|ids|] == ids;
    LastEffectInForce(s, ids, |ids|, m, env, h, lt);
  }

  /**
   Once the queue has drained, a rollback that waited and succeeded has taken all rules off the node exactly when no
   application and no acceptable plan waited with it. Otherwise the rules of the last of those in delivery order are in
   force, as `RulesOutlastRollbacks` says.
   */
  lemma RollbackSticksIff(s: Pair, node: string, env: Env, h: Hash, lt: Order)
    requires Issued(s.queue.commands) && ArrivesAs(s.queue.commands, node, env)
    requires RollbackWaits(s.queue.commands, node, env)
    ensures RunPending(s, node, env, h, lt).agent.firewall == Null <==>
      !ApplyWaits(s.queue.commands, node, env) && !PlanWaits(s.queue.commands, node, s.agent, env)
  {
    var commands := s.queue.commands;
    var ids := PendingIds(commands, node);
    if ApplyWaits(commands, node, env) {
      var id: nat :| Waiting(commands, node, id) && env.wire(id).ApplyFirewall? && env.fate(id) == Succeeds;
      var i := PositionOf(commands, node, id);
      var m := RulesOutlastRollbacks(s, node, i, env, h, lt);
      PositionWaits(commands, node, m);
    } else if PlanWaits(commands, node, s.agent, env) {
      var id: nat :|
        && Waiting(commands, node, id) && SoundPlan(s.agent, env.wire(id), env.fate(id))
        && env.wire(id).revision >= s.agent.revision;
      var i := PositionOf(commands, node, id);
      var j := SomePlanTakesEffect(s.agent, env, ids, i);
      var m := RulesOutlastRollbacks(s, node, j, env, h, lt);
      PositionWaits(commands, node, m);
    } else {
      OnlyRollbacksLeft(s, node, env, h, lt);
    }
  }

  // ---------------------------------------------------------------- every queue the services build

  datatype QueueOp =
    | Stages(c: string, policies: seq<Policy.NetworkPolicy>, nodes: seq<string>)
    | Undoes(c: string, nodes: seq<string>)
    | Checks(d: Desired, inputs: Inputs)
    | Sends(node: string, payload: Payload, priority: int)
    | Answers(id: nat, details: Details)

  /** Other services send commands that do not concern the firewall. */
  predicate Ordinary(op: QueueOp) {
    op.Sends? ==> !Rules(op.payload) && !op.payload.RollbackFirewall?
  }

  function AfterOps(ops: seq<QueueOp>, h: Hash, lt: Order): Queue {
    if ops == [] then Queue([], [])
    else
      var q := AfterOps(ops[..|ops| - 1], h, lt);
      match ops[|ops| - 1]
      case Stages(c, policies, nodes) => Staged(q, c, policies, nodes)
      case Undoes(c, nodes) => Undone(q, c, nodes)
      case Checks(d, inputs) => Checked(q, d, inputs, h, lt)
      case Sends(node, payload, priority) => Enqueued(q, node, payload, priority)
      case Answers(id, details) => Acknowledged(q, id, details).0
  }

  lemma {:induction false} BroadcastIssued(q: Queue, nodes: seq<string>, payload: Payload, priority: int)
    requires Issued(q.commands) && IssuedOk(Command("", payload, priority, false))
    ensures Issued(Broadcast(q, nodes, payload, priority).commands)
  {
    if nodes != [] {
      BroadcastIssued(q, nodes[..|nodes| - 1], payload, priority);
    }
  }

  lemma CheckIssued(dim: Dimension, q: Queue, d: Desired, inputs: Inputs, h: Hash, lt: Order)
    requires Issued(q.commands)
    ensures Issued(CheckDimension(dim, q, d, inputs, h, lt).commands)
  {
    var c := CorrectionFor(dim, d, inputs);
    assert IssuedOk(Command(inputs.node.id, c.payload, c.priority, false));
  }

  lemma ChecksIssued(q: Queue, d: Desired, inputs: Inputs, h: Hash, lt: Order)
    requires Issued(q.commands)
    ensures Issued(Checked(q, d, inputs, h, lt).commands)
  {
    var q1 := CheckDimension(ROUTES_AND_INTEGRITY, q, d, inputs, h, lt);
    var q2 := CheckDimension(DNS_SERVERS, q1, d, inputs, h, lt);
    var q3 := CheckDimension(KILL_SWITCH, q2, d, inputs, h, lt);
    var q4 := CheckDimension(PEER_TOPOLOGY, q3, d, inputs, h, lt);
    CheckIssued(ROUTES_AND_INTEGRITY, q, d, inputs, h, lt);
    CheckIssued(DNS_SERVERS, q1, d, inputs, h, lt);
    CheckIssued(KILL_SWITCH, q2, d, inputs, h, lt);
    CheckIssued(PEER_TOPOLOGY, q3, d, inputs, h, lt);
    CheckIssued(POLICY_VERSION, q4, d, inputs, h, lt);
  }

  lemma AnswerIssued(q: Queue, id: nat, details: Details)
    requires Issued(q.commands)
    ensures Issued(Acknowledged(q, id, details).0.commands)
  {
    if id < |q.commands| {
      assert IssuedOk(q.commands[id]);
    }
  }

  /** Staging, rolling back, checking, answering and unrelated sending only ever build queues with those priorities. */
  lemma {:induction false} EveryQueueIssued(ops: seq<QueueOp>, h: Hash, lt: Order)
    requires forall i :: 0 <= i < |ops| ==> Ordinary(ops[i])
    ensures Issued(AfterOps(ops, h, lt).commands)
  {
    if ops != [] {
      EveryQueueIssued(ops[..|ops| - 1], h, lt);
      var q := AfterOps(ops[..|ops| - 1], h, lt);
      match ops[|ops| - 1]
      case Stages(c, policies, nodes) =>
        BroadcastIssued(q, nodes, ApplyFirewall(Some(c), Policy.RulesJson(policies)), DEFAULT_PRIORITY);
      case Undoes(c, nodes) =>
        BroadcastIssued(q, nodes, RollbackFirewall(c), ROLLBACK_PRIORITY);
      case Checks(d, inputs) =>
        ChecksIssued(q, d, inputs, h, lt);
      case Sends(node, payload, priority) =>
        assert Ordinary(ops[|ops| - 1]);
      case Answers(id, details) =>
        AnswerIssued(q, id, details);
    }
  }

  // ---------------------------------------------------------------- two queues at which it does not stick

  ghost predicate Idle(q: Queue, node: string) {
    forall id: nat :: !Waiting(q.commands, node, id)
  }

  /** What is waiting arrives unchanged and succeeds. */
  ghost predicate AllGoesWell(commands: seq<Command>, node: string, env: Env) {
    forall id: nat :: Waiting(commands, node, id) ==>
      env.wire(id) == commands[id].payload && env.fate(id) == Succeeds
  }

  /** A node with nothing waiting before has only broadcast commands waiting after. */
  lemma WaitingAfterBroadcast(q: Queue, nodes: seq<string>, payload: Payload, priority: int, node: string, id: nat)
    requires Waiting(Broadcast(q, nodes, payload, priority).commands, node, id)
    ensures var after := Broadcast(q, nodes, payload, priority).commands;
            if id < |q.commands| then after[id] == q.commands[id] else after[id].payload == payload
  {
    BroadcastAppends(q, nodes, payload, priority);
  }

  lemma BroadcastReaches(q: Queue, nodes: seq<string>, payload: Payload, priority: int, node: string) returns (id: nat)
    requires node in nodes
    ensures id >= |q.commands| && Waiting(Broadcast(q, nodes, payload, priority).commands, node, id)
    ensures Broadcast(q, nodes, payload, priority).commands[id].payload == payload
  {
    var k :| 0 <= k < |nodes| && nodes[k] == node;
    id := |q.commands| + k;
    BroadcastAppends(q, nodes, payload, priority);
  }

  lemma StillWaiting(q: Queue, nodes: seq<string>, payload: Payload, priority: int, node: string, id: nat)
    requires Waiting(q.commands, node, id)
    ensures var after := Broadcast(q, nodes, payload, priority).commands;
            Waiting(after, node, id) && after[id] == q.commands[id]
  {
    BroadcastAppends(q, nodes, payload, priority);
  }

  /** A commit is staged and rolled back before an idle node has fetched anything: the node ends up enforcing it. */
  lemma RolledBackPolicyStays(s: Pair, node: string, nodes: seq<string>, c: string, policies: seq<Policy.NetworkPolicy>,
                              env: Env, h: Hash, lt: Order)
    requires Issued(s.queue.commands) && Idle(s.queue, node) && node in nodes
    requires AllGoesWell(Undone(Staged(s.queue, c, policies, nodes), c, nodes).commands, node, env)
    ensures var q := Undone(Staged(s.queue, c, policies, nodes), c, nodes);
            RunPending(Pair(q, s.agent), node, env, h, lt).agent.firewall == Policy.RulesJson(policies)
  {
    var apply, undo := ApplyFirewall(Some(c), Policy.RulesJson(policies)), RollbackFirewall(c);
    var q1 := Staged(s.queue, c, policies, nodes);
    var q2 := Undone(q1, c, nodes);
    BroadcastIssued(s.queue, nodes, apply, DEFAULT_PRIORITY);
    BroadcastIssued(q1, nodes, undo, ROLLBACK_PRIORITY);
    forall id: nat | Waiting(q2.commands, node, id)
      ensures env.wire(id) == apply || env.wire(id) == undo
    {
      WaitingAfterBroadcast(q1, nodes, undo, ROLLBACK_PRIORITY, node, id);
      if id < |q1.commands| {
        WaitingAfterBroadcast(s.queue, nodes, apply, DEFAULT_PRIORITY, node, id);
        assert !Waiting(s.queue.commands, node, id);
      }
    }
    var id := BroadcastReaches(s.queue, nodes, apply, DEFAULT_PRIORITY, node);
    StillWaiting(q1, nodes, undo, ROLLBACK_PRIORITY, node, id);
    var i := PositionOf(q2.commands, node, id);
    var m := RulesOutlastRollbacks(Pair(q2, s.agent), node, i, env, h, lt);
    PositionWaits(q2.commands, node, m);
  }

  /** A plan of the reconciliation service is waiting when the rollback is issued: the node ends up enforcing it. */
  lemma PlanOutlivesRollback(s: Pair, node: string, nodes: seq<string>, c: string, plan: Payload, env: Env, h: Hash,
                             lt: Order)
    requires Issued(s.queue.commands) && Idle(s.queue, node) && node in nodes
    requires plan.Reconcile? && plan.firewall != Null
    requires plan.revision >= s.agent.revision && IntegrityOk(s.agent.files, plan.integrity)
    requires AllGoesWell(Undone(Enqueued(s.queue, node, plan, CORRECTION_PRIORITY), c, nodes).commands, node, env)
    ensures var q := Undone(Enqueued(s.queue, node, plan, CORRECTION_PRIORITY), c, nodes);
            RunPending(Pair(q, s.agent), node, env, h, lt).agent.firewall == plan.firewall
  {
    var undo := RollbackFirewall(c);
    var q1 := Enqueued(s.queue, node, plan, CORRECTION_PRIORITY);
    var q2 := Undone(q1, c, nodes);
    BroadcastIssued(q1, nodes, undo, ROLLBACK_PRIORITY);
    forall id: nat | Waiting(q2.commands, node, id)
      ensures env.wire(id) == plan || env.wire(id) == undo
    {
      WaitingAfterBroadcast(q1, nodes, undo, ROLLBACK_PRIORITY, node, id);
      assert id < |s.queue.commands| ==> !Waiting(s.queue.commands, node, id);
    }
    var id := |s.queue.commands|;
    assert Waiting(q1.commands, node, id);
    StillWaiting(q1, nodes, undo, ROLLBACK_PRIORITY, node, id);
    var i := PositionOf(q2.commands, node, id);
    var j := SomePlanTakesEffect(s.agent, env, PendingIds(q2.commands, node), i);
    var m := RulesOutlastRollbacks(Pair(q2, s.agent), node, j, env, h, lt);
    PositionWaits(q2.commands, node, m);
  }
}
