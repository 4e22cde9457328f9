/**
 What a drift check sends (src/application/node-reconciliation.ts), and what it says about a node that its policy
 version is judged in sync, over every run of the system: the rules whose hash it last echoed decide every flow as the
 access decision does. What the node enforces afterwards may differ, since rollbacks and plans change it silently.
 */
module CheckMeaning {
  import opened Agent
  import opened CanonicalJson
  import opened CommandQueue
  import opened DriftSoundness
  import opened IntegritySoundness
  import opened MeshPlan
  import opened Policy
  import opened Reconciliation
  import opened RolloutMeaning
  import opened StableSort
  import opened Wire

  /** This step makes the node enforce rules that hash to this. */
  ghost predicate EnforcesHashed(s: System, e: Event, t: System, n: string, hash: string, h: Hash, lt: Order) {
    && e.Execute? && e.id < |s.queue.commands| && s.queue.commands[e.id].node == n && n in t.agents
    && WellFormed(t.agents[n].firewall) && h(Print(t.agents[n].firewall, lt)) == hash
  }

  predicate EchoesRules(a: Ack) {
    a.kind == APPLY_FIREWALL && a.details.FirewallEcho?
  }

  lemma NewEcho(s: System, e: Event, a: Ack, h: Hash, lt: Order)
    requires QueueOk(s.queue) && Enabled(s, e) && e.Execute?
    requires a in Next(s, e, h, lt).queue.acks && a !in s.queue.acks && EchoesRules(a)
    ensures EnforcesHashed(s, e, Next(s, e, h, lt), a.node, a.details.firewallHash, h, lt)
  {
    var command := s.queue.commands[e.id];
    FreshAcknowledgement(s.queue, e.id, Executed(s.agents[command.node], e.wire, e.fate, h, lt).1);
  }

  lemma {:induction false} EchoHasExecution(
      states: seq<System>, events: seq<Event>, i: nat, a: Ack, h: Hash, lt: Order)
      returns (k: nat)
    requires Injective(h) && IsRun(states, events, h, lt) && i < |states|
    requires a in states[i].queue.acks && EchoesRules(a)
    ensures k < i && EnforcesHashed(states[k], events[k], states[k + 1], a.node, a.details.firewallHash, h, lt)
    decreases i
  {
    if a in states[i - 1].queue.acks {
      k := EchoHasExecution(states, events, i - 1, a, h, lt);
    } else {
      k := i - 1;
      QueueAlwaysOk(states, events, k, h, lt);
      NewEcho(states[k], events[k], a, h, lt);
    }
  }

  lemma SameHashSameRules(ps: seq<NetworkPolicy>, rules: Json, f: Flow, s: Subject, h: Hash, lt: Order)
    requires Injective(h) && TotalOrder(lt) && WellFormed(rules) && h(Print(rules, lt)) == h(Print(RulesJson(ps), lt))
    requires Sorted(ps, ByPriority()) && Policy.Admitted(s) && Entitled(ps, s)
    ensures WireAllows(rules, f) <==> Grants(ps, f, s, ALLOW)
  {
    RulesJsonWellFormed(ps);
    CanonicalFaithful(RulesJson(ps), rules, lt);
    WireMeaning(ps, rules, f, s);
  }

  /** A node judged in sync came to enforce rules that allow exactly the flows the access decision allows. */
  lemma InSyncMeansDecided(
      states: seq<System>, events: seq<Event>, i: nat, d: Desired, inputs: Inputs, f: Flow, s: Subject, h: Hash,
      lt: Order)
      returns (k: nat)
    requires Injective(h) && TotalOrder(lt) && IsRun(states, events, h, lt) && i < |states|
    requires InSync(POLICY_VERSION, states[i].queue.acks, d, inputs, h, lt)
    requires Sorted(inputs.policies, ByPriority()) && Policy.Admitted(s) && Entitled(inputs.policies, s)
    ensures k < i && inputs.node.id in states[k + 1].agents
    ensures WireAllows(states[k + 1].agents[inputs.node.id].firewall, f) <==> Grants(inputs.policies, f, s, ALLOW)
  {
    var a := LatestOkIsLogged(states[i].queue.acks, inputs.node.id, APPLY_FIREWALL);
    k := EchoHasExecution(states, events, i, a, h, lt);
    SameHashSameRules(inputs.policies, states[k + 1].agents[inputs.node.id].firewall, f, s, h, lt);
  }

  // ---------------------------------------------------------------- what a check sends

  /** A correction carries the desired row, rules that decide as the access decision does, and the peers of the plan. */
  ghost predicate Carries(c: Command, d: Desired, inputs: Inputs, f: Flow, s: Subject) {
    && c.node == inputs.node.id && !c.acked
    && match c.payload
       case Reconcile(revision, routes, firewall, integrity) =>
         && c.priority == 150 && revision == d.revision && routes == d.routes && integrity == d.integrity
         && (WireAllows(firewall, f) <==> Grants(inputs.policies, f, s, ALLOW))
       case SetDns(servers) => c.priority == 150 && servers == d.dns
       case SetKillSwitch(enabled) => c.priority == 150 && enabled == d.killSwitch
       case ApplyPeers(peers) => c.priority == 100 && PeersRead(peers, PlanFor(inputs.node, inputs.all, inputs.relay))
       case ApplyFirewall(commitId, rules) =>
         && c.priority == 150 && commitId == inputs.commitId
         && (WireAllows(rules, f) <==> Grants(inputs.policies, f, s, ALLOW))
       case _ => false
  }

  predicate PeersRead(peers: Json, plan: seq<PeerPlan>) {
    peers.Arr? && |peers.items| == |plan| && forall k :: 0 <= k < |plan| ==> PeerReads(peers.items[k], plan[k])
  }

  lemma CorrectionCarries(dim: Dimension, d: Desired, inputs: Inputs, f: Flow, s: Subject)
    requires Sorted(inputs.policies, ByPriority()) && Policy.Admitted(s) && Entitled(inputs.policies, s)
    ensures var c := CorrectionFor(dim, d, inputs);
            Carries(Command(inputs.node.id, c.payload, c.priority, false), d, inputs, f, s)
  {
    if dim == PEER_TOPOLOGY {
      PeersJsonWellFormed(PlanFor(inputs.node, inputs.all, inputs.relay));
      EquivalentToItself(TargetPeers(inputs));
      PeersArrive(PlanFor(inputs.node, inputs.all, inputs.relay), TargetPeers(inputs));
    } else {
      RulesJsonWellFormed(inputs.policies);
      EquivalentToItself(TargetRules(inputs));
      WireMeaning(inputs.policies, TargetRules(inputs), f, s);
    }
  }

  ghost predicate AllCarry(q: Queue, from: nat, d: Desired, inputs: Inputs, f: Flow, s: Subject) {
    from <= |q.commands| && forall id :: from <= id < |q.commands| ==> Carries(q.commands[id], d, inputs, f, s)
  }

  lemma CheckCarries(
      dim: Dimension, q: Queue, from: nat, d: Desired, inputs: Inputs, f: Flow, s: Subject, h: Hash, lt: Order)
    requires Sorted(inputs.policies, ByPriority()) && Policy.Admitted(s) && Entitled(inputs.policies, s)
    requires AllCarry(q, from, d, inputs, f, s)
    ensures AllCarry(CheckDimension(dim, q, d, inputs, h, lt), from, d, inputs, f, s)
  {
    CorrectionCarries(dim, d, inputs, f, s);
  }

  /** Every command a check queues sets the node to what is desired of it, and nothing else. */
  lemma ChecksSendTheDesired(
      q: Queue, d: Desired, inputs: Inputs, f: Flow, s: Subject, h: Hash, lt: Order)
    requires Sorted(inputs.policies, ByPriority()) && Policy.Admitted(s) && Entitled(inputs.policies, s)
    ensures AllCarry(Checked(q, d, inputs, h, lt), |q.commands|, d, inputs, f, s)
  {
    var n := |q.commands|;
    var q1 := CheckDimension(ROUTES_AND_INTEGRITY, q, d, inputs, h, lt);
    var q2 := CheckDimension(DNS_SERVERS, q1, d, inputs, h, lt);
    var q3 := CheckDimension(KILL_SWITCH, q2, d, inputs, h, lt);
    var q4 := CheckDimension(PEER_TOPOLOGY, q3, d, inputs, h, lt);
    CheckCarries(ROUTES_AND_INTEGRITY, q, n, d, inputs, f, s, h, lt);
    CheckCarries(DNS_SERVERS, q1, n, d, inputs, f, s, h, lt);
    CheckCarries(KILL_SWITCH, q2, n, d, inputs, f, s, h, lt);
    CheckCarries(PEER_TOPOLOGY, q3, n, d, inputs, f, s, h, lt);
    CheckCarries(POLICY_VERSION, q4, n, d, inputs, f, s, h, lt);
  }
}
