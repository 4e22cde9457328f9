/**
 Drift reconciliation (src/application/node-reconciliation.ts) over the command queue, the endpoint agents and the
 desired-state table (services/mesh-controller/pg-desired-state-store.ts).
 */
module Reconciliation {
  import opened Agent
  import opened CanonicalJson
  import opened CommandQueue
  import opened MeshPlan
  import opened Policy
  import opened Routes
  import opened Wrappers

  /** A row of `node_desired_state`. */
  datatype Desired = Desired(
    revision: nat, routes: seq<Route>, dns: seq<string>, killSwitch: bool, integrity: map<string, string>)

  /** What one check reads besides the desired row: the mesh, the relay choice, the policies, the last commit. */
  datatype Inputs = Inputs(
    node: MeshNode, all: seq<MeshNode>, relay: Option<string>, policies: seq<NetworkPolicy>, commitId: Option<string>)

  datatype Dimension = ROUTES_AND_INTEGRITY | DNS_SERVERS | KILL_SWITCH | PEER_TOPOLOGY | POLICY_VERSION

  datatype Finding = Finding(dimension: Dimension, drifted: bool)

  datatype Correction = Correction(payload: Payload, priority: int)

  const CORRECTION_PRIORITY := 150

  function TargetPeers(inputs: Inputs): Json {
    PeersJson(PlanFor(inputs.node, inputs.all, inputs.relay))
  }

  function TargetRules(inputs: Inputs): Json {
    RulesJson(inputs.policies)
  }

  function KindOf(dim: Dimension): Kind {
    match dim
    case ROUTES_AND_INTEGRITY => RECONCILE
    case DNS_SERVERS => SET_DNS
    case KILL_SWITCH => SET_KILL_SWITCH
    case PEER_TOPOLOGY => APPLY_PEERS
    case POLICY_VERSION => APPLY_FIREWALL
  }

  /** Whether what a node last echoed for a dimension is what it should hold. */
  predicate EchoMatches(dim: Dimension, echo: Option<Details>, d: Desired, inputs: Inputs, h: Hash, lt: Order) {
    match dim
    case ROUTES_AND_INTEGRITY =>
      echo.Some? && echo.value.ReconcileEcho? && !echo.value.stale && echo.value.revision >= d.revision
    case DNS_SERVERS => echo == Some(DnsEcho(d.dns))
    case KILL_SWITCH => echo == Some(KillSwitchEcho(d.killSwitch))
    case PEER_TOPOLOGY => echo == Some(PeersEcho(h(Print(TargetPeers(inputs), lt))))
    case POLICY_VERSION =>
      echo.Some? && echo.value.FirewallEcho? && echo.value.firewallHash == h(Print(TargetRules(inputs), lt))
  }

  predicate InSync(dim: Dimension, acks: seq<Ack>, d: Desired, inputs: Inputs, h: Hash, lt: Order) {
    EchoMatches(dim, LatestOk(acks, inputs.node.id, KindOf(dim)), d, inputs, h, lt)
  }

  function FindingsFor(acks: seq<Ack>, d: Desired, inputs: Inputs, h: Hash, lt: Order): seq<Finding> {
    [Finding(ROUTES_AND_INTEGRITY, !InSync(ROUTES_AND_INTEGRITY, acks, d, inputs, h, lt)),
     Finding(DNS_SERVERS, !InSync(DNS_SERVERS, acks, d, inputs, h, lt)),
     Finding(KILL_SWITCH, !InSync(KILL_SWITCH, acks, d, inputs, h, lt)),
     Finding(PEER_TOPOLOGY, !InSync(PEER_TOPOLOGY, acks, d, inputs, h, lt)),
     Finding(POLICY_VERSION, !InSync(POLICY_VERSION, acks, d, inputs, h, lt))]
  }

  /** The command that corrects a dimension; the peer plan travels at the default priority. */
  function CorrectionFor(dim: Dimension, d: Desired, inputs: Inputs): Correction {
    match dim
    case ROUTES_AND_INTEGRITY =>
      Correction(Reconcile(d.revision, d.routes, TargetRules(inputs), d.integrity), CORRECTION_PRIORITY)
    case DNS_SERVERS => Correction(SetDns(d.dns), CORRECTION_PRIORITY)
    case KILL_SWITCH => Correction(SetKillSwitch(d.killSwitch), CORRECTION_PRIORITY)
    case PEER_TOPOLOGY => Correction(ApplyPeers(TargetPeers(inputs)), DEFAULT_PRIORITY)
    case POLICY_VERSION => Correction(ApplyFirewall(inputs.commitId, TargetRules(inputs)), CORRECTION_PRIORITY)
  }

  function CheckDimension(dim: Dimension, q: Queue, d: Desired, inputs: Inputs, h: Hash, lt: Order): Queue {
    if InSync(dim, q.acks, d, inputs, h, lt) then q
    else
      var c := CorrectionFor(dim, d, inputs);
      Enqueued(q, inputs.node.id, c.payload, c.priority)
  }

  /** The queue after the five checks, in their order. */
  function Checked(q: Queue, d: Desired, inputs: Inputs, h: Hash, lt: Order): Queue {
    var q1 := CheckDimension(ROUTES_AND_INTEGRITY, q, d, inputs, h, lt);
    var q2 := CheckDimension(DNS_SERVERS, q1, d, inputs, h, lt);
    var q3 := CheckDimension(KILL_SWITCH, q2, d, inputs, h, lt);
    var q4 := CheckDimension(PEER_TOPOLOGY, q3, d, inputs, h, lt);
    CheckDimension(POLICY_VERSION, q4, d, inputs, h, lt)
  }

  datatype CheckResult = NodeNotFound | Findings(checked: seq<Finding>)

  class NodeReconciliationService {
    const hash: Hash
    const lt: Order
    const queue: PgCommandQueue

    constructor (hash: Hash, lt: Order, queue: PgCommandQueue)
      ensures this.hash == hash && this.lt == lt && this.queue == queue
    {
      this.hash, this.lt, this.queue := hash, lt, queue;
    }

    method Check(dim: Dimension, d: Desired, inputs: Inputs) returns (f: Finding)
      modifies queue
      ensures queue.Tables() == CheckDimension(dim, old(queue.Tables()), d, inputs, hash, lt)
      ensures f == Finding(dim, !InSync(dim, old(queue.acks), d, inputs, hash, lt))
    {
      var echo := queue.LatestAcknowledgement(inputs.node.id, KindOf(dim));
      if EchoMatches(dim, echo, d, inputs, hash, lt) {
        return Finding(dim, false);
      }
      var c := CorrectionFor(dim, d, inputs);
      queue.Enqueue(inputs.node.id, c.payload, c.priority);
      return Finding(dim, true);
    }

    /** `checkNode`: one finding per dimension, and a correction queued for exactly the drifted ones. */
    method CheckNode(known: bool, desired: Option<Desired>, inputs: Inputs) returns (r: CheckResult)
      modifies queue
      ensures !known ==> r == NodeNotFound && queue.Tables() == old(queue.Tables())
      ensures known && desired.None? ==> r == Findings([]) && queue.Tables() == old(queue.Tables())
      ensures known && desired.Some? ==>
        && queue.Tables() == Checked(old(queue.Tables()), desired.value, inputs, hash, lt)
        && r == Findings(FindingsFor(old(queue.acks), desired.value, inputs, hash, lt))
    {
      if !known {
        return NodeNotFound;
      }
      if desired.None? {
        return Findings([]);
      }
      var d := desired.value;
      var routes := Check(ROUTES_AND_INTEGRITY, d, inputs);
      var dns := Check(DNS_SERVERS, d, inputs);
      var killSwitch := Check(KILL_SWITCH, d, inputs);
      var peers := Check(PEER_TOPOLOGY, d, inputs);
      var policy := Check(POLICY_VERSION, d, inputs);
      r := Findings([routes, dns, killSwitch, peers, policy]);
    }
  }
}
