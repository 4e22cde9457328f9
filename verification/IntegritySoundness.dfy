/**
 What a successful RECONCILE says about the files of a node, over every run of the system (src/agent/reconciler.ts,
 src/application/node-reconciliation.ts). Files may change at any time, so it speaks of the moment of its execution.
 */
module IntegritySoundness {
  import opened Agent
  import opened CanonicalJson
  import opened CommandQueue
  import opened DriftSoundness
  import opened Reconciliation
  import opened RolloutMeaning

  /** This step executes the command while the node holds every file the command expects, with that very hash. */
  ghost predicate ExecutesIntact(s: System, e: Event, id: nat) {
    && e.Execute? && e.id == id && id < |s.queue.commands| && s.queue.commands[id].node in s.agents
    && s.queue.commands[id].payload.Reconcile?
    && s.queue.commands[id].payload.integrity.Items <= s.agents[s.queue.commands[id].node].files.Items
  }

  /** A RECONCILE that was current and succeeded. */
  predicate ReportsIntact(a: Ack) {
    a.kind == RECONCILE && a.details.ReconcileEcho? && !a.details.stale
  }

  lemma NewReport(s: System, e: Event, a: Ack, h: Hash, lt: Order)
    requires QueueOk(s.queue) && Enabled(s, e) && e.Execute?
    requires a in Next(s, e, h, lt).queue.acks && a !in s.queue.acks && ReportsIntact(a)
    ensures ExecutesIntact(s, e, a.command)
    ensures a.node == s.queue.commands[a.command].node
    ensures a.details.revision == s.queue.commands[a.command].payload.revision
  {
    var command := s.queue.commands[e.id];
    var agent := s.agents[command.node];
    FreshAcknowledgement(s.queue, e.id, Executed(agent, e.wire, e.fate, h, lt).1);
    FailsExactlyWhen(agent, e.wire, e.fate, h, lt);
  }

  /** Every report of a current RECONCILE's success was written by executing it on matching files. */
  lemma {:induction false} SuccessMeansIntact(
      states: seq<System>, events: seq<Event>, i: nat, a: Ack, h: Hash, lt: Order)
      returns (k: nat)
    requires Injective(h) && IsRun(states, events, h, lt) && i < |states|
    requires a in states[i].queue.acks && ReportsIntact(a)
    ensures k < i && ExecutesIntact(states[k], events[k], a.command)
    ensures a.node == states[k].queue.commands[a.command].node
    ensures a.details.revision == states[k].queue.commands[a.command].payload.revision
    decreases i
  {
    if a in states[i - 1].queue.acks {
      k := SuccessMeansIntact(states, events, i - 1, a, h, lt);
    } else {
      k := i - 1;
      QueueAlwaysOk(states, events, k, h, lt);
      NewReport(states[k], events[k], a, h, lt);
    }
  }

  lemma {:induction false} LatestOkIsLogged(acks: seq<Ack>, n: string, kind: Kind) returns (a: Ack)
    requires LatestOk(acks, n, kind).Some?
    ensures a in acks && a.node == n && a.kind == kind && a.details == LatestOk(acks, n, kind).value
  {
    a := acks[|acks| - 1];
    if !Reports(a, n, kind) {
      a := LatestOkIsLogged(acks[..|acks| - 1], n, kind);
    }
  }

  /** A node judged in sync held every file of its desired row when it executed the RECONCILE it is judged by. */
  lemma InSyncMeansIntact(states: seq<System>, events: seq<Event>, i: nat, inputs: Inputs, h: Hash, lt: Order)
      returns (k: nat)
    requires Injective(h) && IsRun(states, events, h, lt) && i < |states|
    requires Rows(states[i], inputs.node.id) != []
    requires InSync(ROUTES_AND_INTEGRITY, states[i].queue.acks, Current(states[i], inputs.node.id), inputs, h, lt)
    ensures k < i && inputs.node.id in states[k].agents
    ensures Current(states[i], inputs.node.id).integrity.Items <= states[k].agents[inputs.node.id].files.Items
  {
    var n, s := inputs.node.id, states[i];
    var a := LatestOkIsLogged(s.queue.acks, n, RECONCILE);
    k := SuccessMeansIntact(states, events, i, a, h, lt);
    CommandsKept(states, events, k, i, a.command, h, lt);
    RunInv(states, events, i, h, lt);
    assert CommandOk(s.queue.commands[a.command], Rows(s, s.queue.commands[a.command].node));
    assert RowsOk(Rows(s, n));
  }
}
