/**
 Convergence of drift correction: one round is a `checkNode` followed by the node draining its queue. The desired row,
 the mesh, the policies and the relay choice stay fixed during the rounds and no command expires.
 */
module Convergence {
  import opened Agent
  import opened CanonicalJson
  import opened CommandQueue
  import opened DriftSoundness
  import opened MeshPlan
  import opened Policy
  import opened Reconciliation
  import opened StableSort
  import opened Wrappers

  // ---------------------------------------------------------------- what draining a queue leaves in the log

  /** The last command of a kind in an execution order. */
  function LastOfKind(commands: seq<Command>, ids: seq<nat>, kind: Kind): (last: Option<nat>)
    ensures last.Some? ==> last.value < |commands| && commands[last.value].payload.Kind() == kind
  {
    if ids == [] then None
    else
      var id := ids[|ids| - 1];
      if id < |commands| && commands[id].payload.Kind() == kind then Some(id)
      else LastOfKind(commands, ids[..|ids| - 1], kind)
  }

  /** What a successful execution echoes, for the kinds whose echo depends on the payload alone. */
  function EchoOf(p: Payload, h: Hash, lt: Order): Details {
    match p
    case SetKillSwitch(enabled) => KillSwitchEcho(enabled)
    case SetDns(servers) => DnsEcho(servers)
    case ApplyPeers(peers) => PeersEcho(h(Print(peers, lt)))
    case ApplyFirewall(commitId, rules) => FirewallEcho(commitId, h(Print(rules, lt)))
    case _ => Done
  }

  predicate EchoKind(kind: Kind) {
    kind == SET_KILL_SWITCH || kind == SET_DNS || kind == APPLY_PEERS || kind == APPLY_FIREWALL
  }

  ghost predicate SameCommands(a: seq<Command>, b: seq<Command>) {
    |a| == |b| && forall i :: 0 <= i < |a| ==> a[i] == b[i].(acked := a[i].acked)
  }

  ghost predicate WireOk(commands: seq<Command>, env: Env) {
    forall id: nat :: id < |commands| ==> Delivers(commands[id].payload, env.wire(id))
  }

  lemma {:induction false} RunFacts(s: Pair, n: string, k: nat, env: Env, h: Hash, lt: Order)
    requires QueueOk(s.queue) && k <= |PendingIds(s.queue.commands, n)|
    ensures var t := RunAll(s, PendingIds(s.queue.commands, n)[..k], env, h, lt);
            && QueueOk(t.queue) && SameCommands(t.queue.commands, s.queue.commands)
            && t.agent.files == s.agent.files
  {
    var todo := PendingIds(s.queue.commands, n);
    if k == 0 {
      assert todo[..0] == [];
    } else {
      RunFacts(s, n, k - 1, env, h, lt);
      StepFacts(s, n, k - 1, env, h, lt);
    }
  }

  /** One step of draining: the next id is waiting, and its acknowledgement is appended. */
  lemma StepFacts(s: Pair, n: string, k: nat, env: Env, h: Hash, lt: Order)
    requires k < |PendingIds(s.queue.commands, n)|
    requires var t := RunAll(s, PendingIds(s.queue.commands, n)[..k], env, h, lt);
             QueueOk(t.queue) && SameCommands(t.queue.commands, s.queue.commands)
    ensures var todo := PendingIds(s.queue.commands, n);
            var t, u := RunAll(s, todo[..k], env, h, lt), RunAll(s, todo[..k + 1], env, h, lt);
            var id := todo[k];
            && Waiting(s.queue.commands, n, id)
            && u == RunOne(t, id, env, h, lt)
            && QueueOk(u.queue) && SameCommands(u.queue.commands, s.queue.commands)
            && u.queue.acks == t.queue.acks + [AckFor(s, t, id, n, env, h, lt)]
            && u.agent.files == t.agent.files
  {
    var todo := PendingIds(s.queue.commands, n);
    var t := RunAll(s, todo[..k], env, h, lt);
    var id := todo[k];
    assert id in todo;
    PendingIsWaiting(s.queue.commands, n, id);
    RunAllPending(s, n, todo, k, env, h, lt);
    RunNext(s, n, todo, k, env, h, lt);
    assert id in todo[k..];
    PendingIsWaiting(t.queue.commands, n, id);
    FreshAcknowledgement(t.queue, id, Executed(t.agent, env.wire(id), env.fate(id), h, lt).1);
    ExecutedFiles(t.agent, env.wire(id), env.fate(id), h, lt);
  }

  lemma ExecutedFiles(a: AgentState, p: Payload, fate: Fate, h: Hash, lt: Order)
    ensures Executed(a, p, fate, h, lt).0.files == a.files
  {
  }

  function AckFor(s: Pair, t: Pair, id: nat, n: string, env: Env, h: Hash, lt: Order): Ack
    requires id < |s.queue.commands|
  {
    var details := Executed(t.agent, env.wire(id), env.fate(id), h, lt).1;
    Ack(id, n, s.queue.commands[id].payload.Kind(), details.Status(), details)
  }

  lemma LastOfKindStep(commands: seq<Command>, ids: seq<nat>, k: nat, kind: Kind)
    requires k < |ids| && ids[k] < |commands|
    ensures LastOfKind(commands, ids[..k + 1], kind)
         == if commands[ids[k]].payload.Kind() == kind then Some(ids[k]) else LastOfKind(commands, ids[..k], kind)
  {
    assert ids[..k + 1][..k] == ids[..k];
  }

  /** What the latest success of an echoing kind should be after executing `ids`. */
  ghost predicate Echoed(
      s: Pair, ids: seq<nat>, kind: Kind, n: string, after: Option<Details>, env: Env, h: Hash, lt: Order) {
    var last := LastOfKind(s.queue.commands, ids, kind);
    after == if last.Some? then Some(EchoOf(env.wire(last.value), h, lt)) else LatestOk(s.queue.acks, n, kind)
  }

  lemma EchoedStep(s: Pair, t: Pair, n: string, ids: seq<nat>, k: nat, kind: Kind, env: Env, h: Hash, lt: Order)
    requires k < |ids| && ids[k] < |s.queue.commands| && EchoKind(kind)
    requires Delivers(s.queue.commands[ids[k]].payload, env.wire(ids[k]))
    requires s.queue.commands[ids[k]].payload.Kind() == kind ==> env.fate(ids[k]) == Succeeds
    requires Echoed(s, ids[..k], kind, n, LatestOk(t.queue.acks, n, kind), env, h, lt)
    ensures Echoed(s, ids[..k + 1], kind, n,
                   LatestOk(t.queue.acks + [AckFor(s, t, ids[k], n, env, h, lt)], n, kind), env, h, lt)
  {
    LatestOkAppend(t.queue.acks, AckFor(s, t, ids[k], n, env, h, lt), n, kind);
    LastOfKindStep(s.queue.commands, ids, k, kind);
    if s.queue.commands[ids[k]].payload.Kind() == kind {
      EchoOnSuccess(t.agent, env.wire(ids[k]), h, lt);
    }
  }

  /** After draining, the latest success of an echoing kind is the echo of its last command, in delivery order. */
  lemma {:induction false} LatestAfterRun(s: Pair, n: string, k: nat, kind: Kind, env: Env, h: Hash, lt: Order)
    requires QueueOk(s.queue) && EchoKind(kind) && WireOk(s.queue.commands, env)
    requires k <= |PendingIds(s.queue.commands, n)|
    requires SucceedsOn(s.queue.commands, n, kind, env)
    ensures var ids := PendingIds(s.queue.commands, n)[..k];
            Echoed(s, ids, kind, n, LatestOk(RunAll(s, ids, env, h, lt).queue.acks, n, kind), env, h, lt)
  {
    var todo := PendingIds(s.queue.commands, n);
    if k == 0 {
      assert todo[..0] == [];
    } else {
      LatestAfterRun(s, n, k - 1, kind, env, h, lt);
      RunFacts(s, n, k - 1, env, h, lt);
      StepFacts(s, n, k - 1, env, h, lt);
      EchoedStep(s, RunAll(s, todo[..k - 1], env, h, lt), n, todo, k - 1, kind, env, h, lt);
    }
  }

  lemma EchoOnSuccess(a: AgentState, p: Payload, h: Hash, lt: Order)
    requires EchoKind(p.Kind())
    ensures Executed(a, p, Succeeds, h, lt).1 == EchoOf(p, h, lt) && EchoOf(p, h, lt).Status() == SUCCEEDED
  {
  }

  ghost predicate SucceedsOn(commands: seq<Command>, n: string, kind: Kind, env: Env) {
    forall id: nat :: Waiting(commands, n, id) && commands[id].payload.Kind() == kind ==> env.fate(id) == Succeeds
  }

  /** No RECONCILE for the node asks for more than the desired revision. */
  ghost predicate ReconcilesUpTo(commands: seq<Command>, n: string, d: Desired) {
    forall i :: 0 <= i < |commands| && commands[i].node == n && commands[i].payload.Reconcile? ==>
      commands[i].payload.revision <= d.revision
  }

  /** The files on the node are the ones every pending RECONCILE expects. */
  ghost predicate FilesMatch(commands: seq<Command>, n: string, files: map<string, string>) {
    forall id: nat :: Waiting(commands, n, id) && commands[id].payload.Reconcile? ==>
      IntegrityOk(files, commands[id].payload.integrity)
  }

  lemma ReconcileStep(a: AgentState, p: Payload, fate: Fate, d: Desired, h: Hash, lt: Order)
    requires a.revision <= d.revision && (p.Reconcile? ==> p.revision <= d.revision)
    ensures Executed(a, p, fate, h, lt).0.revision <= d.revision
  {
  }

  lemma ReconcileReports(a: AgentState, p: Payload, d: Desired, h: Hash, lt: Order)
    requires p.Reconcile? && a.revision <= d.revision && p.revision <= d.revision && IntegrityOk(a.files, p.integrity)
    ensures JudgedCurrent(Some(Executed(a, p, Succeeds, h, lt).1), p.revision == d.revision, d)
    ensures Executed(a, p, Succeeds, h, lt).1.Status() == SUCCEEDED
  {
  }

  /** A RECONCILE report in sync with the desired revision, or one that is not. */
  ghost predicate JudgedCurrent(echo: Option<Details>, current: bool, d: Desired) {
    && echo.Some? && echo.value.ReconcileEcho?
    && (current <==> !echo.value.stale && echo.value.revision >= d.revision)
  }

  lemma {:induction false} RevisionAfterRun(s: Pair, n: string, k: nat, d: Desired, env: Env, h: Hash, lt: Order)
    requires QueueOk(s.queue) && WireOk(s.queue.commands, env) && k <= |PendingIds(s.queue.commands, n)|
    requires ReconcilesUpTo(s.queue.commands, n, d) && s.agent.revision <= d.revision
    ensures RunAll(s, PendingIds(s.queue.commands, n)[..k], env, h, lt).agent.revision <= d.revision
  {
    var todo := PendingIds(s.queue.commands, n);
    if k == 0 {
      assert todo[..0] == [];
    } else {
      RevisionAfterRun(s, n, k - 1, d, env, h, lt);
      RunFacts(s, n, k - 1, env, h, lt);
      StepFacts(s, n, k - 1, env, h, lt);
      var id := todo[k - 1];
      assert Delivers(s.queue.commands[id].payload, env.wire(id));
      ReconcileStep(RunAll(s, todo[..k - 1], env, h, lt).agent, env.wire(id), env.fate(id), d, h, lt);
    }
  }

  /** How the log stands for RECONCILE after executing `ids`. */
  ghost predicate Settled(
      commands: seq<Command>, ids: seq<nat>, before: Option<Details>, after: Option<Details>, d: Desired) {
    var last := LastOfKind(commands, ids, RECONCILE);
    if last.None? then after == before else JudgedCurrent(after, commands[last.value].payload.revision == d.revision, d)
  }

  lemma SettledStep(
      commands: seq<Command>, ids: seq<nat>, k: nat, before: Option<Details>, after: Option<Details>,
      a: AgentState, wire: Payload, d: Desired, h: Hash, lt: Order)
    requires k < |ids| && ids[k] < |commands| && Settled(commands, ids[..k], before, after, d)
    requires Delivers(commands[ids[k]].payload, wire) && a.revision <= d.revision
    requires wire.Reconcile? ==> wire.revision <= d.revision && IntegrityOk(a.files, wire.integrity)
    ensures commands[ids[k]].payload.Kind() == RECONCILE ==>
      var details := Executed(a, wire, Succeeds, h, lt).1;
      details.Status() == SUCCEEDED && Settled(commands, ids[..k + 1], before, Some(details), d)
    ensures commands[ids[k]].payload.Kind() != RECONCILE ==> Settled(commands, ids[..k + 1], before, after, d)
  {
    LastOfKindStep(commands, ids, k, RECONCILE);
    if commands[ids[k]].payload.Kind() == RECONCILE {
      ReconcileReports(a, wire, d, h, lt);
    }
  }

  lemma WireRevision(commands: seq<Command>, n: string, id: nat, wire: Payload, files: map<string, string>, d: Desired)
    requires Waiting(commands, n, id) && ReconcilesUpTo(commands, n, d) && FilesMatch(commands, n, files)
    requires Delivers(commands[id].payload, wire)
    ensures wire.Reconcile? <==> commands[id].payload.Kind() == RECONCILE
    ensures wire.Reconcile? ==> wire.revision <= d.revision && IntegrityOk(files, wire.integrity)
  {
  }

  lemma ReconcileAfterStep(s: Pair, n: string, k: nat, d: Desired, env: Env, h: Hash, lt: Order)
    requires QueueOk(s.queue) && WireOk(s.queue.commands, env) && k < |PendingIds(s.queue.commands, n)|
    requires ReconcilesUpTo(s.queue.commands, n, d) && s.agent.revision <= d.revision
    requires SucceedsOn(s.queue.commands, n, RECONCILE, env) && FilesMatch(s.queue.commands, n, s.agent.files)
    requires var ids := PendingIds(s.queue.commands, n)[..k];
             Settled(s.queue.commands, ids, LatestOk(s.queue.acks, n, RECONCILE),
                     LatestOk(RunAll(s, ids, env, h, lt).queue.acks, n, RECONCILE), d)
    ensures var ids := PendingIds(s.queue.commands, n)[..k + 1];
            Settled(s.queue.commands, ids, LatestOk(s.queue.acks, n, RECONCILE),
                    LatestOk(RunAll(s, ids, env, h, lt).queue.acks, n, RECONCILE), d)
  {
    var todo := PendingIds(s.queue.commands, n);
    RevisionAfterRun(s, n, k, d, env, h, lt);
    RunFacts(s, n, k, env, h, lt);
    StepFacts(s, n, k, env, h, lt);
    var t := RunAll(s, todo[..k], env, h, lt);
    var id := todo[k];
    LatestOkAppend(t.queue.acks, AckFor(s, t, id, n, env, h, lt), n, RECONCILE);
    WireRevision(s.queue.commands, n, id, env.wire(id), s.agent.files, d);
    assert env.wire(id).Reconcile? ==> env.fate(id) == Succeeds;
    SettledStep(s.queue.commands, todo, k, LatestOk(s.queue.acks, n, RECONCILE),
                LatestOk(t.queue.acks, n, RECONCILE), t.agent, env.wire(id), d, h, lt);
  }

  /** After draining, the node reports the desired revision applied exactly when the last RECONCILE carried it. */
  lemma {:induction false} ReconcileAfterRun(s: Pair, n: string, k: nat, d: Desired, env: Env, h: Hash, lt: Order)
    requires QueueOk(s.queue) && WireOk(s.queue.commands, env) && k <= |PendingIds(s.queue.commands, n)|
    requires ReconcilesUpTo(s.queue.commands, n, d) && s.agent.revision <= d.revision
    requires SucceedsOn(s.queue.commands, n, RECONCILE, env) && FilesMatch(s.queue.commands, n, s.agent.files)
    ensures var ids := PendingIds(s.queue.commands, n)[..k];
            Settled(s.queue.commands, ids, LatestOk(s.queue.acks, n, RECONCILE),
                    LatestOk(RunAll(s, ids, env, h, lt).queue.acks, n, RECONCILE), d)
  {
    if k == 0 {
      assert PendingIds(s.queue.commands, n)[..0] == [];
    } else {
      ReconcileAfterRun(s, n, k - 1, d, env, h, lt);
      ReconcileAfterStep(s, n, k - 1, d, env, h, lt);
    }
  }

  lemma {:induction false} LastOfKindIs(commands: seq<Command>, ids: seq<nat>, kind: Kind)
    ensures var last := LastOfKind(commands, ids, kind);
            && (last.Some? ==> last.value in ids && last.value < |commands|
                               && commands[last.value].payload.Kind() == kind)
            && (last.None? ==> forall id: nat :: id in ids && id < |commands| ==> commands[id].payload.Kind() != kind)
  {
    if ids != [] {
      LastOfKindIs(commands, ids[..|ids| - 1], kind);
      assert forall id: nat :: id in ids <==> id == ids[|ids| - 1] || id in ids[..|ids| - 1];
    }
  }

  // ---------------------------------------------------------------- what a check adds to the queue

  function AppendFix(q: Queue, dim: Dimension, fixes: map<Dimension, Command>): Queue {
    if dim in fixes then q.(commands := q.commands + [fixes[dim]]) else q
  }

  /** The correction command of every drifted dimension. */
  function Fixes(acks: seq<Ack>, d: Desired, inputs: Inputs, h: Hash, lt: Order): map<Dimension, Command> {
    map dim | dim in ALL_DIMENSIONS && !InSync(dim, acks, d, inputs, h, lt)
      :: Command(inputs.node.id, CorrectionFor(dim, d, inputs).payload, CorrectionFor(dim, d, inputs).priority, false)
  }

  const ALL_DIMENSIONS := {ROUTES_AND_INTEGRITY, DNS_SERVERS, KILL_SWITCH, PEER_TOPOLOGY, POLICY_VERSION}

  lemma CheckAppends(dim: Dimension, q: Queue, acks: seq<Ack>, d: Desired, inputs: Inputs, h: Hash, lt: Order)
    requires q.acks == acks
    ensures CheckDimension(dim, q, d, inputs, h, lt) == AppendFix(q, dim, Fixes(acks, d, inputs, h, lt))
  {
    EveryDimension(dim);
  }

  lemma EveryDimension(dim: Dimension)
    ensures dim in ALL_DIMENSIONS
  {
    match dim
    case ROUTES_AND_INTEGRITY =>
    case DNS_SERVERS =>
    case KILL_SWITCH =>
    case PEER_TOPOLOGY =>
    case POLICY_VERSION =>
  }

  ghost predicate FixOf(c: Command, dims: set<Dimension>, fixes: map<Dimension, Command>) {
    exists dim :: dim in dims && dim in fixes && c == fixes[dim]
  }

  ghost predicate AppendedAfter(cs: seq<Command>, from: nat, c: Command) {
    exists i :: from <= i < |cs| && cs[i] == c
  }

  /** `r` is `q` with the fixes of `dims` appended in some order; see `CheckAppendsEachOnce`. */
  ghost predicate Extends(r: Queue, q: Queue, dims: set<Dimension>, fixes: map<Dimension, Command>) {
    && r.acks == q.acks && q.commands <= r.commands
    && (forall i :: |q.commands| <= i < |r.commands| ==> FixOf(r.commands[i], dims, fixes))
    && (forall dim :: dim in dims && dim in fixes ==> AppendedAfter(r.commands, |q.commands|, fixes[dim]))
  }

  lemma ExtendsStep(r: Queue, q: Queue, dims: set<Dimension>, dim: Dimension, fixes: map<Dimension, Command>)
    requires Extends(r, q, dims, fixes)
    ensures Extends(AppendFix(r, dim, fixes), q, dims + {dim}, fixes)
  {
    var t := AppendFix(r, dim, fixes);
    forall i | |q.commands| <= i < |t.commands|
      ensures FixOf(t.commands[i], dims + {dim}, fixes)
    {
      if i < |r.commands| {
        assert t.commands[i] == r.commands[i];
        var x :| x in dims && x in fixes && r.commands[i] == fixes[x];
        assert x in dims + {dim};
      } else {
        assert dim in dims + {dim};
      }
    }
    forall x | x in dims + {dim} && x in fixes
      ensures AppendedAfter(t.commands, |q.commands|, fixes[x])
    {
      if x in dims {
        var i :| |q.commands| <= i < |r.commands| && r.commands[i] == fixes[x];
        assert t.commands[i] == r.commands[i];
      } else {
        assert t.commands[|r.commands|] == fixes[x];
      }
    }
  }

  /** A check corrects exactly the drifted dimensions, behind whatever was queued, and touches nothing else. */
  lemma CheckedExtends(q: Queue, d: Desired, inputs: Inputs, h: Hash, lt: Order)
    ensures Extends(Checked(q, d, inputs, h, lt), q, ALL_DIMENSIONS, Fixes(q.acks, d, inputs, h, lt))
  {
    var fixes := Fixes(q.acks, d, inputs, h, lt);
    var q1 := AppendFix(q, ROUTES_AND_INTEGRITY, fixes);
    var q2 := AppendFix(q1, DNS_SERVERS, fixes);
    var q3 := AppendFix(q2, KILL_SWITCH, fixes);
    var q4 := AppendFix(q3, PEER_TOPOLOGY, fixes);
    CheckAppends(ROUTES_AND_INTEGRITY, q, q.acks, d, inputs, h, lt);
    CheckAppends(DNS_SERVERS, q1, q.acks, d, inputs, h, lt);
    CheckAppends(KILL_SWITCH, q2, q.acks, d, inputs, h, lt);
    CheckAppends(PEER_TOPOLOGY, q3, q.acks, d, inputs, h, lt);
    CheckAppends(POLICY_VERSION, q4, q.acks, d, inputs, h, lt);
    AllStepsExtend(q, fixes);
  }

  lemma AllStepsExtend(q: Queue, fixes: map<Dimension, Command>)
    ensures var q1 := AppendFix(q, ROUTES_AND_INTEGRITY, fixes);
            var q2 := AppendFix(q1, DNS_SERVERS, fixes);
            var q3 := AppendFix(q2, KILL_SWITCH, fixes);
            var q4 := AppendFix(q3, PEER_TOPOLOGY, fixes);
            Extends(AppendFix(q4, POLICY_VERSION, fixes), q, ALL_DIMENSIONS, fixes)
  {
    var q1 := AppendFix(q, ROUTES_AND_INTEGRITY, fixes);
    var q2 := AppendFix(q1, DNS_SERVERS, fixes);
    var q3 := AppendFix(q2, KILL_SWITCH, fixes);
    var q4 := AppendFix(q3, PEER_TOPOLOGY, fixes);
    ExtendsStep(q, q, {}, ROUTES_AND_INTEGRITY, fixes);
    var s1 := {} + {ROUTES_AND_INTEGRITY};
    ExtendsStep(q1, q, s1, DNS_SERVERS, fixes);
    ExtendsStep(q2, q, s1 + {DNS_SERVERS}, KILL_SWITCH, fixes);
    ExtendsStep(q3, q, s1 + {DNS_SERVERS} + {KILL_SWITCH}, PEER_TOPOLOGY, fixes);
    ExtendsStep(q4, q, s1 + {DNS_SERVERS} + {KILL_SWITCH} + {PEER_TOPOLOGY}, POLICY_VERSION, fixes);
    assert s1 + {DNS_SERVERS} + {KILL_SWITCH} + {PEER_TOPOLOGY} + {POLICY_VERSION} == ALL_DIMENSIONS;
  }

  /** The correction of a dimension, if it drifted. */
  function FixFor(dim: Dimension, fixes: map<Dimension, Command>): seq<Command> {
    if dim in fixes then [fixes[dim]] else []
  }

  lemma CheckAppendsFix(dim: Dimension, q: Queue, acks: seq<Ack>, d: Desired, inputs: Inputs, h: Hash, lt: Order)
    requires q.acks == acks
    ensures var r := CheckDimension(dim, q, d, inputs, h, lt);
            r.acks == acks && r.commands == q.commands + FixFor(dim, Fixes(acks, d, inputs, h, lt))
  {
    CheckAppends(dim, q, acks, d, inputs, h, lt);
  }

  /** A check appends exactly the corrections of the drifted dimensions, each once, in the order of the checks. */
  lemma CheckAppendsEachOnce(q: Queue, d: Desired, inputs: Inputs, h: Hash, lt: Order)
    ensures var fixes := Fixes(q.acks, d, inputs, h, lt);
            Checked(q, d, inputs, h, lt).commands
            == q.commands + FixFor(ROUTES_AND_INTEGRITY, fixes) + FixFor(DNS_SERVERS, fixes)
               + FixFor(KILL_SWITCH, fixes) + FixFor(PEER_TOPOLOGY, fixes) + FixFor(POLICY_VERSION, fixes)
  {
    var q1 := CheckDimension(ROUTES_AND_INTEGRITY, q, d, inputs, h, lt);
    var q2 := CheckDimension(DNS_SERVERS, q1, d, inputs, h, lt);
    var q3 := CheckDimension(KILL_SWITCH, q2, d, inputs, h, lt);
    var q4 := CheckDimension(PEER_TOPOLOGY, q3, d, inputs, h, lt);
    CheckAppendsFix(ROUTES_AND_INTEGRITY, q, q.acks, d, inputs, h, lt);
    CheckAppendsFix(DNS_SERVERS, q1, q.acks, d, inputs, h, lt);
    CheckAppendsFix(KILL_SWITCH, q2, q.acks, d, inputs, h, lt);
    CheckAppendsFix(PEER_TOPOLOGY, q3, q.acks, d, inputs, h, lt);
    CheckAppendsFix(POLICY_VERSION, q4, q.acks, d, inputs, h, lt);
  }

  // ---------------------------------------------------------------- one round

  /** A `checkNode` followed by the node draining its queue. */
  function Round(s: Pair, d: Desired, inputs: Inputs, env: Env, h: Hash, lt: Order): Pair {
    RunPending(Pair(Checked(s.queue, d, inputs, h, lt), s.agent), inputs.node.id, env, h, lt)
  }

  /** What reachability provides: see `ReachableIsReady`. */
  ghost predicate Ready(s: Pair, n: string, d: Desired) {
    QueueOk(s.queue) && ReconcilesUpTo(s.queue.commands, n, d) && s.agent.revision <= d.revision
  }

  /** What every fix is. */
  ghost predicate FixesOk(fixes: map<Dimension, Command>, d: Desired, inputs: Inputs) {
    forall dim :: dim in fixes ==>
      && fixes[dim].node == inputs.node.id && !fixes[dim].acked
      && fixes[dim].payload == CorrectionFor(dim, d, inputs).payload
      && fixes[dim].priority == CorrectionFor(dim, d, inputs).priority
  }

  lemma FixesAreOk(acks: seq<Ack>, d: Desired, inputs: Inputs, h: Hash, lt: Order)
    ensures FixesOk(Fixes(acks, d, inputs, h, lt), d, inputs)
    ensures forall dim :: dim in Fixes(acks, d, inputs, h, lt) <==> !InSync(dim, acks, d, inputs, h, lt)
  {
    forall dim: Dimension
      ensures dim in ALL_DIMENSIONS
    {
      EveryDimension(dim);
    }
  }

  lemma FixDimension(c: Command, fixes: map<Dimension, Command>, d: Desired, inputs: Inputs) returns (dim: Dimension)
    requires FixesOk(fixes, d, inputs) && FixOf(c, ALL_DIMENSIONS, fixes)
    ensures c.payload == CorrectionFor(dim, d, inputs).payload && c.payload.Kind() == KindOf(dim)
    ensures c.priority == CorrectionFor(dim, d, inputs).priority && dim in fixes
  {
    dim :| dim in ALL_DIMENSIONS && dim in fixes && c == fixes[dim];
  }

  lemma ExtendsKeepsReady(q: Queue, s: Pair, fixes: map<Dimension, Command>, d: Desired, inputs: Inputs)
    requires Ready(s, inputs.node.id, d) && FixesOk(fixes, d, inputs) && Extends(q, s.queue, ALL_DIMENSIONS, fixes)
    ensures Ready(Pair(q, s.agent), inputs.node.id, d)
  {
    forall i | 0 <= i < |q.commands| && q.commands[i].node == inputs.node.id && q.commands[i].payload.Reconcile?
      ensures q.commands[i].payload.revision <= d.revision
    {
      if i < |s.queue.commands| {
        assert q.commands[i] == s.queue.commands[i];
      } else {
        var dim := FixDimension(q.commands[i], fixes, d, inputs);
      }
    }
  }

  lemma CheckKeepsReady(s: Pair, d: Desired, inputs: Inputs, h: Hash, lt: Order)
    requires Ready(s, inputs.node.id, d)
    ensures Ready(Pair(Checked(s.queue, d, inputs, h, lt), s.agent), inputs.node.id, d)
  {
    CheckedExtends(s.queue, d, inputs, h, lt);
    FixesAreOk(s.queue.acks, d, inputs, h, lt);
    ExtendsKeepsReady(Checked(s.queue, d, inputs, h, lt), s, Fixes(s.queue.acks, d, inputs, h, lt), d, inputs);
  }

  /** Whatever fails along the way, a round empties the node's queue and keeps the state ready for the next one. */
  lemma RoundIdles(s: Pair, d: Desired, inputs: Inputs, env: Env, h: Hash, lt: Order)
    requires Ready(s, inputs.node.id, d) && WireOk(Checked(s.queue, d, inputs, h, lt).commands, env)
    ensures var t := Round(s, d, inputs, env, h, lt);
            && PendingIds(t.queue.commands, inputs.node.id) == []
            && Ready(t, inputs.node.id, d) && t.agent.files == s.agent.files
  {
    var n := inputs.node.id;
    var p := Pair(Checked(s.queue, d, inputs, h, lt), s.agent);
    var todo := PendingIds(p.queue.commands, n);
    CheckKeepsReady(s, d, inputs, h, lt);
    assert todo[..|todo|] == todo;
    RunAllPending(p, n, todo, |todo|, env, h, lt);
    RunFacts(p, n, |todo|, env, h, lt);
    RevisionAfterRun(p, n, |todo|, d, env, h, lt);
  }

  /** The payload asks for what the dimension should be. */
  ghost predicate Targets(dim: Dimension, p: Payload, d: Desired, inputs: Inputs) {
    match dim
    case ROUTES_AND_INTEGRITY => p.Reconcile? && p.revision == d.revision
    case DNS_SERVERS => p == SetDns(d.dns)
    case KILL_SWITCH => p == SetKillSwitch(d.killSwitch)
    case PEER_TOPOLOGY => p.ApplyPeers? && Equivalent(p.peers, TargetPeers(inputs))
    case POLICY_VERSION => p.ApplyFirewall? && Equivalent(p.rules, TargetRules(inputs))
  }

  ghost predicate PayloadWellFormed(p: Payload) {
    (p.ApplyPeers? ==> WellFormed(p.peers)) && (p.ApplyFirewall? ==> WellFormed(p.rules))
  }

  /** Reordering keys on the wire does not matter to a comparison of canonical texts. */
  lemma SameTextThroughWire(sent: Json, wire: Json, target: Json, h: Hash, lt: Order)
    requires Injective(h) && TotalOrder(lt) && WellFormed(sent) && WellFormed(wire) && WellFormed(target)
    requires Equivalent(sent, wire)
    ensures h(Print(wire, lt)) == h(Print(target, lt)) <==> Equivalent(sent, target)
  {
    CanonicalFaithful(sent, wire, lt);
    CanonicalFaithful(sent, target, lt);
  }

  lemma TargetsWellFormed(inputs: Inputs)
    ensures WellFormed(TargetPeers(inputs)) && WellFormed(TargetRules(inputs))
  {
    PeersJsonWellFormed(PlanFor(inputs.node, inputs.all, inputs.relay));
    RulesJsonWellFormed(inputs.policies);
  }

  lemma EchoMatchesTarget(dim: Dimension, sent: Payload, wire: Payload, d: Desired, inputs: Inputs, h: Hash, lt: Order)
    requires Injective(h) && TotalOrder(lt) && PayloadWellFormed(sent) && Delivers(sent, wire)
    requires EchoKind(KindOf(dim)) && sent.Kind() == KindOf(dim)
    ensures EchoMatches(dim, Some(EchoOf(wire, h, lt)), d, inputs, h, lt) <==> Targets(dim, sent, d, inputs)
  {
    TargetsWellFormed(inputs);
    match dim
    case PEER_TOPOLOGY => SameTextThroughWire(sent.peers, wire.peers, TargetPeers(inputs), h, lt);
    case POLICY_VERSION => SameTextThroughWire(sent.rules, wire.rules, TargetRules(inputs), h, lt);
    case _ =>
  }

  /** The last pending command of a dimension once the check has queued its corrections. */
  function LastPending(s: Pair, dim: Dimension, d: Desired, inputs: Inputs, h: Hash, lt: Order): (last: Option<nat>)
    ensures last.Some? ==> last.value < |Checked(s.queue, d, inputs, h, lt).commands|
    ensures last.Some? ==> Checked(s.queue, d, inputs, h, lt).commands[last.value].payload.Kind() == KindOf(dim)
  {
    var commands := Checked(s.queue, d, inputs, h, lt).commands;
    LastOfKind(commands, PendingIds(commands, inputs.node.id), KindOf(dim))
  }

  /** A fix is pending as soon as it is queued. */
  lemma FixIsPending(
      q: Queue, before: Queue, dim: Dimension, fixes: map<Dimension, Command>, d: Desired, inputs: Inputs)
    requires FixesOk(fixes, d, inputs) && Extends(q, before, ALL_DIMENSIONS, fixes)
    requires dim in fixes && dim in ALL_DIMENSIONS
    ensures LastOfKind(q.commands, PendingIds(q.commands, inputs.node.id), KindOf(dim)).Some?
  {
    var i :| |before.commands| <= i < |q.commands| && q.commands[i] == fixes[dim];
    WaitingIsPending(q.commands, inputs.node.id, i, KindOf(dim));
  }

  lemma WaitingIsPending(commands: seq<Command>, n: string, id: nat, kind: Kind)
    requires Waiting(commands, n, id) && commands[id].payload.Kind() == kind
    ensures LastOfKind(commands, PendingIds(commands, n), kind).Some?
  {
    LastOfKindIs(commands, PendingIds(commands, n), kind);
    PendingIsWaiting(commands, n, id);
  }

  lemma NothingPendingMeansInSync(s: Pair, dim: Dimension, d: Desired, inputs: Inputs, h: Hash, lt: Order)
    requires LastPending(s, dim, d, inputs, h, lt).None?
    ensures InSync(dim, s.queue.acks, d, inputs, h, lt)
  {
    CheckedExtends(s.queue, d, inputs, h, lt);
    FixesAreOk(s.queue.acks, d, inputs, h, lt);
    if !InSync(dim, s.queue.acks, d, inputs, h, lt) {
      FixIsPending(Checked(s.queue, d, inputs, h, lt), s.queue, dim, Fixes(s.queue.acks, d, inputs, h, lt), d, inputs);
    }
  }

  /** What a round needs to bring a dimension in sync: its commands succeed and the wire is faithful. */
  ghost predicate Favourable(s: Pair, dim: Dimension, d: Desired, inputs: Inputs, env: Env, h: Hash, lt: Order) {
    var commands := Checked(s.queue, d, inputs, h, lt).commands;
    && WireOk(commands, env) && SucceedsOn(commands, inputs.node.id, KindOf(dim), env)
    && FilesMatch(commands, inputs.node.id, s.agent.files)
  }

  /**
   One round brings a dimension in sync exactly when the command of its kind that drains last, if any is pending once
   the corrections are queued, asks for the desired value.
   */
  lemma OneRoundIff(s: Pair, dim: Dimension, d: Desired, inputs: Inputs, env: Env, h: Hash, lt: Order)
    requires Injective(h) && TotalOrder(lt) && Ready(s, inputs.node.id, d)
    requires Favourable(s, dim, d, inputs, env, h, lt)
    requires var last := LastPending(s, dim, d, inputs, h, lt);
             last.Some? ==> PayloadWellFormed(Checked(s.queue, d, inputs, h, lt).commands[last.value].payload)
    ensures var last := LastPending(s, dim, d, inputs, h, lt);
            InSync(dim, Round(s, d, inputs, env, h, lt).queue.acks, d, inputs, h, lt)
            <==> last.None? || Targets(dim, Checked(s.queue, d, inputs, h, lt).commands[last.value].payload, d, inputs)
  {
    var n := inputs.node.id;
    var p := Pair(Checked(s.queue, d, inputs, h, lt), s.agent);
    var todo := PendingIds(p.queue.commands, n);
    CheckKeepsReady(s, d, inputs, h, lt);
    CheckedExtends(s.queue, d, inputs, h, lt);
    assert todo[..|todo|] == todo;
    var last := LastPending(s, dim, d, inputs, h, lt);
    if last.None? {
      NothingPendingMeansInSync(s, dim, d, inputs, h, lt);
    }
    if dim == ROUTES_AND_INTEGRITY {
      ReconcileAfterRun(p, n, |todo|, d, env, h, lt);
    } else {
      LatestAfterRun(p, n, |todo|, KindOf(dim), env, h, lt);
      if last.Some? {
        assert Delivers(p.queue.commands[last.value].payload, env.wire(last.value));
        EchoMatchesTarget(dim, p.queue.commands[last.value].payload, env.wire(last.value), d, inputs, h, lt);
      }
    }
  }

  // ---------------------------------------------------------------- two rounds

  lemma CorrectionTargets(dim: Dimension, d: Desired, inputs: Inputs, lt: Order)
    requires TotalOrder(lt)
    ensures Targets(dim, CorrectionFor(dim, d, inputs).payload, d, inputs)
    ensures PayloadWellFormed(CorrectionFor(dim, d, inputs).payload)
  {
    TargetsWellFormed(inputs);
    CanonicalFaithful(TargetPeers(inputs), TargetPeers(inputs), lt);
    CanonicalFaithful(TargetRules(inputs), TargetRules(inputs), lt);
  }

  /** On an idle node only the corrections are pending after a check. */
  lemma OnlyFixesPending(
      q: Queue, before: Queue, id: nat, fixes: map<Dimension, Command>, d: Desired, inputs: Inputs)
      returns (dim: Dimension)
    requires PendingIds(before.commands, inputs.node.id) == [] && FixesOk(fixes, d, inputs)
    requires Extends(q, before, ALL_DIMENSIONS, fixes) && Waiting(q.commands, inputs.node.id, id)
    ensures q.commands[id].payload == CorrectionFor(dim, d, inputs).payload
    ensures q.commands[id].payload.Kind() == KindOf(dim)
  {
    PendingIsWaiting(before.commands, inputs.node.id, id);
    dim := FixDimension(q.commands[id], fixes, d, inputs);
  }

  lemma IdleLast(q: Queue, before: Queue, dim: Dimension, fixes: map<Dimension, Command>, d: Desired, inputs: Inputs)
    requires PendingIds(before.commands, inputs.node.id) == [] && FixesOk(fixes, d, inputs)
    requires Extends(q, before, ALL_DIMENSIONS, fixes)
    ensures var last := LastOfKind(q.commands, PendingIds(q.commands, inputs.node.id), KindOf(dim));
            last.Some? ==> q.commands[last.value].payload == CorrectionFor(dim, d, inputs).payload
  {
    var todo := PendingIds(q.commands, inputs.node.id);
    var last := LastOfKind(q.commands, todo, KindOf(dim));
    if last.Some? {
      LastOfKindIs(q.commands, todo, KindOf(dim));
      PendingIsWaiting(q.commands, inputs.node.id, last.value);
      var x := OnlyFixesPending(q, before, last.value, fixes, d, inputs);
      assert x == dim;
    }
  }

  lemma IdleLastPending(s: Pair, dim: Dimension, d: Desired, inputs: Inputs, h: Hash, lt: Order)
    requires PendingIds(s.queue.commands, inputs.node.id) == []
    ensures var last := LastPending(s, dim, d, inputs, h, lt);
            last.Some? ==>
              Checked(s.queue, d, inputs, h, lt).commands[last.value].payload == CorrectionFor(dim, d, inputs).payload
  {
    CheckedExtends(s.queue, d, inputs, h, lt);
    FixesAreOk(s.queue.acks, d, inputs, h, lt);
    IdleLast(Checked(s.queue, d, inputs, h, lt), s.queue, dim, Fixes(s.queue.acks, d, inputs, h, lt), d, inputs);
  }

  lemma IdleFiles(
      q: Queue, before: Queue, fixes: map<Dimension, Command>, files: map<string, string>, d: Desired, inputs: Inputs)
    requires PendingIds(before.commands, inputs.node.id) == [] && FixesOk(fixes, d, inputs)
    requires Extends(q, before, ALL_DIMENSIONS, fixes) && IntegrityOk(files, d.integrity)
    ensures FilesMatch(q.commands, inputs.node.id, files)
  {
    forall id: nat | Waiting(q.commands, inputs.node.id, id) && q.commands[id].payload.Reconcile?
      ensures IntegrityOk(files, q.commands[id].payload.integrity)
    {
      var x := OnlyFixesPending(q, before, id, fixes, d, inputs);
      assert x == ROUTES_AND_INTEGRITY;
    }
  }

  lemma IdleFilesMatch(s: Pair, d: Desired, inputs: Inputs, h: Hash, lt: Order)
    requires PendingIds(s.queue.commands, inputs.node.id) == [] && IntegrityOk(s.agent.files, d.integrity)
    ensures FilesMatch(Checked(s.queue, d, inputs, h, lt).commands, inputs.node.id, s.agent.files)
  {
    CheckedExtends(s.queue, d, inputs, h, lt);
    FixesAreOk(s.queue.acks, d, inputs, h, lt);
    IdleFiles(Checked(s.queue, d, inputs, h, lt), s.queue, Fixes(s.queue.acks, d, inputs, h, lt), s.agent.files, d,
              inputs);
  }

  /** The wire is faithful and every command the node still has to execute succeeds. */
  ghost predicate AllSucceed(commands: seq<Command>, n: string, env: Env) {
    WireOk(commands, env) && forall id: nat :: Waiting(commands, n, id) ==> env.fate(id) == Succeeds
  }

  lemma IdleRoundFixes(s: Pair, dim: Dimension, d: Desired, inputs: Inputs, env: Env, h: Hash, lt: Order)
    requires Injective(h) && TotalOrder(lt) && Ready(s, inputs.node.id, d)
    requires PendingIds(s.queue.commands, inputs.node.id) == [] && IntegrityOk(s.agent.files, d.integrity)
    requires AllSucceed(Checked(s.queue, d, inputs, h, lt).commands, inputs.node.id, env)
    ensures InSync(dim, Round(s, d, inputs, env, h, lt).queue.acks, d, inputs, h, lt)
  {
    IdleFilesMatch(s, d, inputs, h, lt);
    IdleLastPending(s, dim, d, inputs, h, lt);
    CorrectionTargets(dim, d, inputs, lt);
    OneRoundIff(s, dim, d, inputs, env, h, lt);
  }

  ghost predicate NoDrift(q: Queue, d: Desired, inputs: Inputs, h: Hash, lt: Order) {
    && (forall dim :: InSync(dim, q.acks, d, inputs, h, lt))
    && Checked(q, d, inputs, h, lt) == q
  }

  /**
   Two rounds converge from every ready state, whatever is queued and whatever fails in the first: if the commands of
   the second round succeed and the desired files are on the node, the next check finds no drift in any dimension and
   queues nothing.
   */
  lemma TwoRoundsConverge(s: Pair, d: Desired, inputs: Inputs, first: Env, second: Env, h: Hash, lt: Order)
    requires Injective(h) && TotalOrder(lt) && Ready(s, inputs.node.id, d) && IntegrityOk(s.agent.files, d.integrity)
    requires WireOk(Checked(s.queue, d, inputs, h, lt).commands, first)
    requires var t := Round(s, d, inputs, first, h, lt);
             AllSucceed(Checked(t.queue, d, inputs, h, lt).commands, inputs.node.id, second)
    ensures var u := Round(Round(s, d, inputs, first, h, lt), d, inputs, second, h, lt);
            NoDrift(u.queue, d, inputs, h, lt) && PendingIds(u.queue.commands, inputs.node.id) == []
  {
    var t := Round(s, d, inputs, first, h, lt);
    RoundIdles(s, d, inputs, first, h, lt);
    RoundIdles(t, d, inputs, second, h, lt);
    forall dim: Dimension
      ensures InSync(dim, Round(t, d, inputs, second, h, lt).queue.acks, d, inputs, h, lt)
    {
      IdleRoundFixes(t, dim, d, inputs, second, h, lt);
    }
  }

  /** Every reachable state of the whole system is ready, for each of its nodes. */
  lemma ReachableIsReady(states: seq<System>, events: seq<Event>, i: nat, n: string, h: Hash, lt: Order)
    requires Injective(h) && IsRun(states, events, h, lt) && i < |states|
    requires n in states[i].agents && Rows(states[i], n) != []
    ensures Ready(Pair(states[i].queue, states[i].agents[n]), n, Current(states[i], n))
  {
    RunInv(states, events, i, h, lt);
    InvIsReady(states[i], n, h, lt);
  }

  lemma InvIsReady(s: System, n: string, h: Hash, lt: Order)
    requires Inv(s, h, lt) && n in s.agents && Rows(s, n) != []
    ensures Ready(Pair(s.queue, s.agents[n]), n, Current(s, n))
  {
    var r: nat :| RoutesFrom(s.agents[n], Rows(s, n), r);
    assert Current(s, n).revision == |Rows(s, n)|;
    forall i | 0 <= i < |s.queue.commands| && s.queue.commands[i].node == n && s.queue.commands[i].payload.Reconcile?
      ensures s.queue.commands[i].payload.revision <= Current(s, n).revision
    {
      assert CommandOk(s.queue.commands[i], Rows(s, s.queue.commands[i].node));
    }
  }

  // ---------------------------------------------------------------- what the node holds afterwards

  /** The node's commands were issued from its desired rows, and none of them is APPLY_WIREGUARD. */
  ghost predicate IssuedFor(commands: seq<Command>, n: string, rows: seq<Desired>) {
    forall i :: 0 <= i < |commands| && commands[i].node == n ==> CommandOk(commands[i], rows)
  }

  /** The reports describe the node; if asked, its agent has not forgotten its revision since it last reported. */
  ghost predicate NodeKnown(p: Pair, n: string, remembers: bool, rows: seq<Desired>, h: Hash, lt: Order) {
    NodeOk(p.queue.acks, n, p.agent, rows, h, lt) && (remembers ==> Remembers(p.queue.acks, n, p.agent))
  }

  lemma NodeAfterStep(
      t: Pair, c: Command, id: nat, remembers: bool, rows: seq<Desired>, env: Env, h: Hash, lt: Order)
    requires Injective(h) && RowsOk(rows) && NodeKnown(t, c.node, remembers, rows, h, lt)
    requires CommandOk(c, rows) && Delivers(c.payload, env.wire(id))
    ensures var (b, details) := Executed(t.agent, env.wire(id), env.fate(id), h, lt);
            var acks := t.queue.acks + [Ack(id, c.node, c.payload.Kind(), details.Status(), details)];
            NodeOk(acks, c.node, b, rows, h, lt) && (remembers ==> Remembers(acks, c.node, b))
  {
    assert env.wire(id).Kind() == c.payload.Kind();
    OwnNodeInv(t.queue.acks, id, c, t.agent, env.wire(id), env.fate(id), rows, h, lt);
    if remembers {
      ExecuteKeepsMemory(t.queue.acks, id, c.node, t.agent, env.wire(id), env.fate(id), h, lt);
    }
  }

  lemma {:induction false} NodeAfterRun(
      s: Pair, n: string, k: nat, remembers: bool, rows: seq<Desired>, env: Env, h: Hash, lt: Order)
    requires Injective(h) && QueueOk(s.queue) && WireOk(s.queue.commands, env) && RowsOk(rows)
    requires k <= |PendingIds(s.queue.commands, n)| && IssuedFor(s.queue.commands, n, rows)
    requires NodeKnown(s, n, remembers, rows, h, lt)
    ensures NodeKnown(RunAll(s, PendingIds(s.queue.commands, n)[..k], env, h, lt), n, remembers, rows, h, lt)
  {
    var todo := PendingIds(s.queue.commands, n);
    if k == 0 {
      assert todo[..0] == [];
    } else {
      NodeAfterRun(s, n, k - 1, remembers, rows, env, h, lt);
      RunFacts(s, n, k - 1, env, h, lt);
      StepFacts(s, n, k - 1, env, h, lt);
      var id := todo[k - 1];
      NodeAfterStep(RunAll(s, todo[..k - 1], env, h, lt), s.queue.commands[id], id, remembers, rows, env, h, lt);
    }
  }

  lemma DrainKeepsIssued(p: Pair, n: string, rows: seq<Desired>, env: Env, h: Hash, lt: Order)
    requires QueueOk(p.queue) && WireOk(p.queue.commands, env) && IssuedFor(p.queue.commands, n, rows)
    ensures IssuedFor(RunPending(p, n, env, h, lt).queue.commands, n, rows)
  {
    var todo := PendingIds(p.queue.commands, n);
    assert todo[..|todo|] == todo;
    RunFacts(p, n, |todo|, env, h, lt);
  }

  lemma DrainKeepsNode(p: Pair, n: string, remembers: bool, rows: seq<Desired>, env: Env, h: Hash, lt: Order)
    requires Injective(h) && QueueOk(p.queue) && WireOk(p.queue.commands, env) && RowsOk(rows)
    requires IssuedFor(p.queue.commands, n, rows) && NodeKnown(p, n, remembers, rows, h, lt)
    ensures NodeKnown(RunPending(p, n, env, h, lt), n, remembers, rows, h, lt)
  {
    var todo := PendingIds(p.queue.commands, n);
    assert todo[..|todo|] == todo;
    NodeAfterRun(p, n, |todo|, remembers, rows, env, h, lt);
  }

  lemma ExtendsIssuedFor(
      q: Queue, before: Queue, fixes: map<Dimension, Command>, rows: seq<Desired>, inputs: Inputs)
    requires rows != [] && RowsOk(rows) && IssuedFor(before.commands, inputs.node.id, rows)
    requires FixesOk(fixes, rows[|rows| - 1], inputs) && Extends(q, before, ALL_DIMENSIONS, fixes)
    ensures IssuedFor(q.commands, inputs.node.id, rows)
  {
    forall i | 0 <= i < |q.commands| && q.commands[i].node == inputs.node.id
      ensures CommandOk(q.commands[i], rows)
    {
      if i < |before.commands| {
        assert q.commands[i] == before.commands[i];
      } else {
        var x := FixDimension(q.commands[i], fixes, rows[|rows| - 1], inputs);
      }
    }
  }

  lemma CheckKeepsIssuedFor(q: Queue, rows: seq<Desired>, inputs: Inputs, h: Hash, lt: Order)
    requires rows != [] && RowsOk(rows) && QueueOk(q) && IssuedFor(q.commands, inputs.node.id, rows)
    ensures var r := Checked(q, rows[|rows| - 1], inputs, h, lt);
            QueueOk(r) && IssuedFor(r.commands, inputs.node.id, rows) && r.acks == q.acks
  {
    var d := rows[|rows| - 1];
    CheckedExtends(q, d, inputs, h, lt);
    FixesAreOk(q.acks, d, inputs, h, lt);
    ExtendsIssuedFor(Checked(q, d, inputs, h, lt), q, Fixes(q.acks, d, inputs, h, lt), rows, inputs);
  }

  lemma RoundKeepsNode(
      s: Pair, remembers: bool, rows: seq<Desired>, inputs: Inputs, env: Env, h: Hash, lt: Order)
    requires Injective(h) && rows != [] && RowsOk(rows) && QueueOk(s.queue)
    requires IssuedFor(s.queue.commands, inputs.node.id, rows) && NodeKnown(s, inputs.node.id, remembers, rows, h, lt)
    requires WireOk(Checked(s.queue, rows[|rows| - 1], inputs, h, lt).commands, env)
    ensures var t := Round(s, rows[|rows| - 1], inputs, env, h, lt);
            NodeKnown(t, inputs.node.id, remembers, rows, h, lt) && IssuedFor(t.queue.commands, inputs.node.id, rows)
  {
    CheckKeepsIssuedFor(s.queue, rows, inputs, h, lt);
    var p := Pair(Checked(s.queue, rows[|rows| - 1], inputs, h, lt), s.agent);
    DrainKeepsNode(p, inputs.node.id, remembers, rows, env, h, lt);
    DrainKeepsIssued(p, inputs.node.id, rows, env, h, lt);
  }

  lemma KnownIsReady(s: Pair, n: string, rows: seq<Desired>, h: Hash, lt: Order)
    requires rows != [] && RowsOk(rows) && QueueOk(s.queue) && IssuedFor(s.queue.commands, n, rows)
    requires NodeOk(s.queue.acks, n, s.agent, rows, h, lt)
    ensures Ready(s, n, rows[|rows| - 1])
  {
    var r: nat :| RoutesFrom(s.agent, rows, r);
  }

  /**
   The node the two rounds end with holds the DNS servers, the kill switch and the peers of the desired row, whether or
   not it restarted before. It holds the routes too if no RECONCILE has failed since they were reported or the agent
   remembers the revision, which it does if it remembered the last one it had reported when the two rounds began.
   */
  lemma ConvergedNodeHoldsDesired(
      s: Pair, rows: seq<Desired>, inputs: Inputs, first: Env, second: Env, h: Hash, lt: Order)
    requires Injective(h) && TotalOrder(lt) && rows != [] && RowsOk(rows) && QueueOk(s.queue)
    requires IssuedFor(s.queue.commands, inputs.node.id, rows)
    requires NodeOk(s.queue.acks, inputs.node.id, s.agent, rows, h, lt)
    requires var d := rows[|rows| - 1];
             && IntegrityOk(s.agent.files, d.integrity)
             && WireOk(Checked(s.queue, d, inputs, h, lt).commands, first)
             && AllSucceed(Checked(Round(s, d, inputs, first, h, lt).queue, d, inputs, h, lt).commands, inputs.node.id,
                           second)
    ensures var d := rows[|rows| - 1];
            var u := Round(Round(s, d, inputs, first, h, lt), d, inputs, second, h, lt);
            && u.agent.dns == d.dns && u.agent.killSwitch == d.killSwitch
            && Equivalent(u.agent.peers, TargetPeers(inputs))
            && (RoutesReliable(u.agent, u.queue.acks, inputs.node.id, d) ==>
                 multiset(u.agent.routes) == multiset(d.routes))
            && (Remembers(s.queue.acks, inputs.node.id, s.agent) ==> u.agent.revision == d.revision)
  {
    var d := rows[|rows| - 1];
    var t := Round(s, d, inputs, first, h, lt);
    var remembers := Remembers(s.queue.acks, inputs.node.id, s.agent);
    KnownIsReady(s, inputs.node.id, rows, h, lt);
    TwoRoundsConverge(s, d, inputs, first, second, h, lt);
    RoundIdles(s, d, inputs, first, h, lt);
    RoundKeepsNode(s, remembers, rows, inputs, first, h, lt);
    RoundKeepsNode(t, remembers, rows, inputs, second, h, lt);
    InSyncNode(Round(t, d, inputs, second, h, lt), remembers, rows, inputs, h, lt);
  }

  lemma InSyncNode(u: Pair, remembers: bool, rows: seq<Desired>, inputs: Inputs, h: Hash, lt: Order)
    requires Injective(h) && TotalOrder(lt) && rows != [] && RowsOk(rows)
    requires NodeKnown(u, inputs.node.id, remembers, rows, h, lt)
    requires NoDrift(u.queue, rows[|rows| - 1], inputs, h, lt)
    ensures var a, d := u.agent, rows[|rows| - 1];
            && a.dns == d.dns && a.killSwitch == d.killSwitch && Equivalent(a.peers, TargetPeers(inputs))
            && (RoutesReliable(a, u.queue.acks, inputs.node.id, d) ==> multiset(a.routes) == multiset(d.routes))
            && (remembers ==> a.revision == d.revision)
  {
    var d := rows[|rows| - 1];
    assert InSync(DNS_SERVERS, u.queue.acks, d, inputs, h, lt) && InSync(KILL_SWITCH, u.queue.acks, d, inputs, h, lt);
    assert InSync(ROUTES_AND_INTEGRITY, u.queue.acks, d, inputs, h, lt);
    assert InSync(PEER_TOPOLOGY, u.queue.acks, d, inputs, h, lt);
    NodeApplied(u.agent, u.queue.acks, rows, inputs, h, lt);
    if remembers {
      RememberedRoutesApplied(u.agent, u.queue.acks, rows, inputs, h, lt);
    }
  }

  lemma {:induction false} AgentsStay(states: seq<System>, events: seq<Event>, i: nat, n: string, h: Hash, lt: Order)
    requires IsRun(states, events, h, lt) && i < |states| && n in states[0].agents
    ensures n in states[i].agents
  {
    if i > 0 {
      AgentsStay(states, events, i - 1, n, h, lt);
    }
  }

  /** Every reachable state is one the two rounds start from, and an agent that never restarted remembers. */
  lemma ReachableIsKnown(states: seq<System>, events: seq<Event>, i: nat, n: string, h: Hash, lt: Order)
    requires Injective(h) && IsRun(states, events, h, lt) && i < |states| && n in states[0].agents
    requires Rows(states[i], n) != []
    ensures n in states[i].agents && RowsOk(Rows(states[i], n)) && QueueOk(states[i].queue)
    ensures IssuedFor(states[i].queue.commands, n, Rows(states[i], n))
    ensures NodeOk(states[i].queue.acks, n, states[i].agents[n], Rows(states[i], n), h, lt)
    ensures (forall k :: 0 <= k < i ==> events[k] != Restarts(n)) ==>
      Remembers(states[i].queue.acks, n, states[i].agents[n])
  {
    var s := states[i];
    AgentsStay(states, events, i, n, h, lt);
    RunInv(states, events, i, h, lt);
    assert NodeOk(s.queue.acks, n, s.agents[n], Rows(s, n), h, lt);
    if forall k :: 0 <= k < i ==> events[k] != Restarts(n) {
      RemembersUntilRestart(states, events, 0, i, n, h, lt);
    }
    forall k | 0 <= k < |s.queue.commands| && s.queue.commands[k].node == n
      ensures CommandOk(s.queue.commands[k], Rows(s, n))
    {
      assert CommandOk(s.queue.commands[k], Rows(s, s.queue.commands[k].node));
    }
  }

  // ---------------------------------------------------------------- why one round is not enough

  lemma LastIsLeastUrgent(commands: seq<Command>, n: string, kind: Kind, id: nat)
    requires Waiting(commands, n, id) && commands[id].payload.Kind() == kind
    ensures var last := LastOfKind(commands, PendingIds(commands, n), kind);
            last.Some? && commands[last.value].priority <= commands[id].priority && Waiting(commands, n, last.value)
  {
    var todo := PendingIds(commands, n);
    PendingIsWaiting(commands, n, id);
    PendingSorted(commands, n);
    LastOfKindIs(commands, todo, kind);
    var last := LastOfKind(commands, todo, kind).value;
    PendingIsWaiting(commands, n, last);
    var k :| 0 <= k < |todo| && todo[k] == id;
    var m := LastPosition(commands, todo, kind, k);
    if k < m {
      assert !Urgency(Priorities(commands))(todo[m], todo[k]);
    }
  }

  lemma {:induction false} LastPosition(commands: seq<Command>, ids: seq<nat>, kind: Kind, k: nat) returns (m: nat)
    requires k < |ids| && ids[k] < |commands| && commands[ids[k]].payload.Kind() == kind
    ensures k <= m < |ids| && LastOfKind(commands, ids, kind) == Some(ids[m])
  {
    var end := |ids| - 1;
    if ids[end] < |commands| && commands[ids[end]].payload.Kind() == kind {
      m := end;
    } else {
      m := LastPosition(commands, ids[..end], kind, k);
    }
  }

  /** A SET_DNS waiting below the priority of corrections that does not carry the desired servers. */
  ghost predicate StaleDns(c: Command, d: Desired) {
    c.payload.SetDns? && c.priority < CORRECTION_PRIORITY && c.payload.servers != d.dns
  }

  ghost predicate LowPriorityDnsIsStale(commands: seq<Command>, n: string, d: Desired) {
    forall i: nat ::
      Waiting(commands, n, i) && commands[i].payload.SetDns? && commands[i].priority < CORRECTION_PRIORITY ==>
        StaleDns(commands[i], d)
  }

  lemma LastDnsIsStale(q: Queue, before: Queue, id: nat, fixes: map<Dimension, Command>, d: Desired, inputs: Inputs)
    requires FixesOk(fixes, d, inputs) && Extends(q, before, ALL_DIMENSIONS, fixes)
    requires LowPriorityDnsIsStale(before.commands, inputs.node.id, d)
    requires Waiting(before.commands, inputs.node.id, id) && StaleDns(before.commands[id], d)
    ensures var last := LastOfKind(q.commands, PendingIds(q.commands, inputs.node.id), SET_DNS);
            last.Some? && q.commands[last.value].payload != SetDns(d.dns)
  {
    assert q.commands[id] == before.commands[id];
    LastIsLeastUrgent(q.commands, inputs.node.id, SET_DNS, id);
    var last := LastOfKind(q.commands, PendingIds(q.commands, inputs.node.id), SET_DNS).value;
    if last >= |before.commands| {
      var x := FixDimension(q.commands[last], fixes, d, inputs);
    } else {
      assert q.commands[last] == before.commands[last];
      assert Waiting(before.commands, inputs.node.id, last);
    }
  }

  /**
   A command left in the queue below the correction's priority drains after it: while every such SET_DNS carries other
   servers, the node is still drifted after the round, even though every command succeeded.
   */
  lemma StaleCommandOutlivesCorrection(s: Pair, id: nat, d: Desired, inputs: Inputs, env: Env, h: Hash, lt: Order)
    requires Injective(h) && TotalOrder(lt) && Ready(s, inputs.node.id, d)
    requires Favourable(s, DNS_SERVERS, d, inputs, env, h, lt)
    requires Waiting(s.queue.commands, inputs.node.id, id) && StaleDns(s.queue.commands[id], d)
    requires LowPriorityDnsIsStale(s.queue.commands, inputs.node.id, d)
    ensures !InSync(DNS_SERVERS, Round(s, d, inputs, env, h, lt).queue.acks, d, inputs, h, lt)
  {
    CheckedExtends(s.queue, d, inputs, h, lt);
    FixesAreOk(s.queue.acks, d, inputs, h, lt);
    LastDnsIsStale(Checked(s.queue, d, inputs, h, lt), s.queue, id, Fixes(s.queue.acks, d, inputs, h, lt), d, inputs);
    OneRoundIff(s, DNS_SERVERS, d, inputs, env, h, lt);
  }
}
