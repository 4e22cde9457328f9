/**
 What a commit says about the nodes, when the acknowledgements that the rollout reads are those written by agents
 executing queued commands (src/application/safe-apply.ts, agents/shared/production-agent.ts).
 */
module RolloutMeaning {
  import opened Agent
  import opened CanonicalJson
  import opened CommandQueue
  import opened DriftSoundness
  import opened Wrappers
  import Policy
  import RolloutStore
  import SafeApply
  import StableSort

  /** This step executes an application of the commit on the node, and it succeeds. */
  ghost predicate AppliesNow(s: System, e: Event, t: System, node: string, c: string) {
    && e.Execute? && e.id < |s.queue.commands| && s.queue.commands[e.id].node == node
    && e.wire.ApplyFirewall? && e.wire.commitId == Some(c) && e.fate == Succeeds
    && node in t.agents && t.agents[node].firewall == e.wire.rules
  }

  ghost predicate Applied(states: seq<System>, events: seq<Event>, k: nat, node: string, c: string) {
    k < |events| && k + 1 < |states| && AppliesNow(states[k], events[k], states[k + 1], node, c)
  }

  lemma ExecutionAnswers(s: System, e: Event, a: Ack, c: string, h: Hash, lt: Order)
    requires QueueOk(s.queue) && Enabled(s, e) && e.Execute?
    requires a in Next(s, e, h, lt).queue.acks && a !in s.queue.acks && RolloutStore.Answers(a, c)
    ensures AppliesNow(s, e, Next(s, e, h, lt), a.node, c)
  {
    var command := s.queue.commands[e.id];
    var details := Executed(s.agents[command.node], e.wire, e.fate, h, lt).1;
    FreshAcknowledgement(s.queue, e.id, details);
    assert e.wire.Kind() == command.payload.Kind();
    assert a == SafeApply.AckOf(e.id, command.node, e.wire, details);
    SafeApply.AnswerMeansApplied(s.agents[command.node], e.wire, e.fate, h, lt, e.id, command.node, c);
  }

  lemma NewAnswer(s: System, e: Event, a: Ack, c: string, h: Hash, lt: Order)
    requires QueueOk(s.queue) && Enabled(s, e)
    requires a in Next(s, e, h, lt).queue.acks && a !in s.queue.acks && RolloutStore.Answers(a, c)
    ensures AppliesNow(s, e, Next(s, e, h, lt), a.node, c)
  {
    if e.Execute? {
      ExecutionAnswers(s, e, a, c, h, lt);
    }
  }

  lemma QueueAlwaysOk(states: seq<System>, events: seq<Event>, i: nat, h: Hash, lt: Order)
    requires Injective(h) && IsRun(states, events, h, lt) && i < |states|
    ensures QueueOk(states[i].queue)
  {
    RunInv(states, events, i, h, lt);
  }

  /** Every acknowledgement that answers for a commit was written by such an execution. */
  lemma {:induction false} AnswerHasExecution(
      states: seq<System>, events: seq<Event>, i: nat, a: Ack, c: string, h: Hash, lt: Order)
      returns (k: nat)
    requires Injective(h) && IsRun(states, events, h, lt) && i < |states|
    requires a in states[i].queue.acks && RolloutStore.Answers(a, c)
    ensures k < i && Applied(states, events, k, a.node, c)
    decreases i
  {
    if a in states[i - 1].queue.acks {
      k := AnswerHasExecution(states, events, i - 1, a, c, h, lt);
    } else {
      k := i - 1;
      QueueAlwaysOk(states, events, k, h, lt);
      NewAnswer(states[k], events[k], a, c, h, lt);
    }
  }

  /** Every poll of the rollout reads the log of some state of the run. */
  ghost predicate ReadsFrom(polls: SafeApply.Polls, n: nat, states: seq<System>, at: nat -> nat) {
    forall i :: 0 <= i < n ==> at(i) < |states| && polls(i).acks == states[at(i)].queue.acks
  }

  /** At threshold zero, a commit means that every targeted node executed this commit's rules successfully. */
  lemma CommitMeansEveryNodeApplied(
      rows: RolloutStore.Rows, c: string, targets: seq<string>, config: SafeApply.Config, w: SafeApply.Window,
      polled: nat, states: seq<System>, events: seq<Event>, at: nat -> nat, t: string, h: Hash, lt: Order)
      returns (k: nat)
    requires Injective(h) && IsRun(states, events, h, lt)
    requires ReadsFrom(w.polls, polled, states, at)
    requires SafeApply.JustStarted(rows, c, targets)
    requires SafeApply.Waited(rows, c, |targets|, config, w, polled, SafeApply.Verdict(None))
    requires config.threshold == 0.0 && t in targets
    ensures Applied(states, events, k, t, c)
  {
    SafeApply.ZeroThresholdNeedsEveryNode(rows, c, targets, config, w, polled, t);
    var i, a :| 0 <= i < polled && a in w.polls(i).acks && RolloutStore.Answers(a, c) && a.node == t
             && a.status == SUCCEEDED;
    k := AnswerHasExecution(states, events, at(i), a, c, h, lt);
  }

  /** Commands keep their nodes and payloads for the rest of the run. */
  lemma {:induction false} CommandsKept(
      states: seq<System>, events: seq<Event>, k: nat, i: nat, id: nat, h: Hash, lt: Order)
    requires IsRun(states, events, h, lt) && k <= i < |states| && id < |states[k].queue.commands|
    ensures id < |states[i].queue.commands|
    ensures states[i].queue.commands[id].payload == states[k].queue.commands[id].payload
    ensures states[i].queue.commands[id].node == states[k].queue.commands[id].node
    decreases i
  {
    if k < i {
      CommandsKept(states, events, k, i - 1, id, h, lt);
      assert states[i] == Next(states[i - 1], events[i - 1], h, lt);
    }
  }

  /** If only one rule set was ever issued under the commit, that rule set is what the node then enforced. */
  lemma AppliedTheIssuedRules(
      states: seq<System>, events: seq<Event>, k: nat, node: string, c: string, rules: Json, h: Hash, lt: Order)
    requires IsRun(states, events, h, lt) && Applied(states, events, k, node, c)
    requires forall id :: 0 <= id < |states[|events|].queue.commands| ==>
      IssuesOnly(states[|events|].queue.commands[id].payload, c, rules)
    ensures Equivalent(rules, states[k + 1].agents[node].firewall)
    ensures WellFormed(states[k + 1].agents[node].firewall)
  {
    var id := events[k].id;
    CommandsKept(states, events, k, |events|, id, h, lt);
    assert IssuesOnly(states[|events|].queue.commands[id].payload, c, rules);
    assert Delivers(states[k].queue.commands[id].payload, events[k].wire);
  }

  /**
   What a rollout is for: at threshold zero, a commit means that every targeted node came to enforce rules that allow
   exactly the flows the access decision allows, if only this rule set was ever issued under the commit.
   */
  lemma CommitEnforcesDecisions(
      rows: RolloutStore.Rows, c: string, targets: seq<string>, config: SafeApply.Config, w: SafeApply.Window,
      polled: nat, states: seq<System>, events: seq<Event>, at: nat -> nat, t: string, h: Hash, lt: Order,
      ps: seq<Policy.NetworkPolicy>, f: Policy.Flow, s: Policy.Subject)
      returns (k: nat)
    requires Injective(h) && IsRun(states, events, h, lt)
    requires ReadsFrom(w.polls, polled, states, at)
    requires SafeApply.JustStarted(rows, c, targets)
    requires SafeApply.Waited(rows, c, |targets|, config, w, polled, SafeApply.Verdict(None))
    requires config.threshold == 0.0 && t in targets
    requires forall id :: 0 <= id < |states[|events|].queue.commands| ==>
      IssuesOnly(states[|events|].queue.commands[id].payload, c, Policy.RulesJson(ps))
    requires StableSort.Sorted(ps, Policy.ByPriority()) && Policy.Admitted(s) && Policy.Entitled(ps, s)
    ensures k < |events| && t in states[k + 1].agents
    ensures Policy.WireAllows(states[k + 1].agents[t].firewall, f) <==> Policy.Grants(ps, f, s, Policy.ALLOW)
  {
    k := CommitMeansEveryNodeApplied(rows, c, targets, config, w, polled, states, events, at, t, h, lt);
    AppliedTheIssuedRules(states, events, k, t, c, Policy.RulesJson(ps), h, lt);
    Policy.WireMeaning(ps, states[k + 1].agents[t].firewall, f, s);
  }

  predicate IssuesOnly(p: Payload, c: string, rules: Json) {
    p.ApplyFirewall? && p.commitId == Some(c) ==> p.rules == rules
  }
}
