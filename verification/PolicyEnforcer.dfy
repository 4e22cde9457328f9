/**
 Staging, committing and rolling back a policy set (src/infrastructure/pg-policy-enforcer.ts over policy_commits). Each
 write to a commit's status is also kept, in order, in a history.
 */
module PolicyEnforcer {
  import opened CommandQueue
  import opened RolloutStore
  import opened Wrappers
  import Policy
  import StableSort
  import Wire

  datatype CommitStatus = STAGED | COMMITTED | ROLLED_BACK

  const ROLLBACK_PRIORITY := 200

  /** One command per node, in list order. */
  function Broadcast(q: Queue, nodes: seq<string>, payload: Payload, priority: int): Queue {
    if nodes == [] then q
    else Enqueued(Broadcast(q, nodes[..|nodes| - 1], payload, priority), nodes[|nodes| - 1], payload, priority)
  }

  /** The queue keeps what it had, followed by exactly the broadcast commands. */
  lemma {:induction false} BroadcastAppends(q: Queue, nodes: seq<string>, payload: Payload, priority: int)
    ensures var after := Broadcast(q, nodes, payload, priority);
            && after.acks == q.acks
            && after.commands == q.commands + seq(|nodes|, i requires 0 <= i < |nodes| =>
                                                    Command(nodes[i], payload, priority, false))
  {
    if nodes != [] {
      BroadcastAppends(q, nodes[..|nodes| - 1], payload, priority);
    }
  }

  /** The nodes a call sends a command to, its first statement having taken effect. */
  function Reached(nodes: seq<string>, fault: Fault): (r: seq<string>)
    ensures fault.Completes? ==> r == nodes
  {
    if Effective(fault, |nodes| + 1) == 0 then [] else nodes[..Effective(fault, |nodes| + 1) - 1]
  }

  /** Whether `stage` gets as far as inserting the commit. */
  predicate Inserts(policies: seq<Policy.NetworkPolicy>, used: bool, fault: Fault, nodes: nat) {
    Policy.Compile(policies).Some? && !used && Effective(fault, nodes + 1) > 0
  }

  /** The queue with the rules of a commit sent to some nodes. */
  function Staged(q: Queue, c: string, policies: seq<Policy.NetworkPolicy>, nodes: seq<string>): Queue {
    Broadcast(q, nodes, ApplyFirewall(Some(c), Policy.RulesJson(policies)), DEFAULT_PRIORITY)
  }

  /** Every node is sent rules that allow exactly the flows the access decision allows, under the commit's name. */
  lemma StagedMeaning(q: Queue, c: string, ps: seq<Policy.NetworkPolicy>, nodes: seq<string>, i: nat, f: Policy.Flow,
                      s: Policy.Subject)
    requires i < |nodes| && StableSort.Sorted(ps, Policy.ByPriority())
    requires Policy.Admitted(s) && Policy.Entitled(ps, s)
    ensures var after := Staged(q, c, ps, nodes).commands;
            && |after| == |q.commands| + |nodes| && after[..|q.commands|] == q.commands
            && var sent := after[|q.commands| + i];
               && sent.node == nodes[i] && !sent.acked && sent.priority == 100
               && sent.payload.ApplyFirewall? && sent.payload.commitId == Some(c)
               && (Policy.WireAllows(sent.payload.rules, f) <==> Policy.Grants(ps, f, s, Policy.ALLOW))
  {
    BroadcastAppends(q, nodes, ApplyFirewall(Some(c), Policy.RulesJson(ps)), DEFAULT_PRIORITY);
    Policy.RulesJsonWellFormed(ps);
    Wire.EquivalentToItself(Policy.RulesJson(ps));
    Policy.WireMeaning(ps, Policy.RulesJson(ps), f, s);
  }

  /** The queue with the rollback of a commit sent to some nodes. */
  function Undone(q: Queue, c: string, nodes: seq<string>): Queue {
    Broadcast(q, nodes, RollbackFirewall(c), ROLLBACK_PRIORITY)
  }

  class PgPolicyEnforcer {
    const queue: PgCommandQueue
    var commits: map<string, CommitStatus>
    ghost var writes: seq<(string, CommitStatus)>

    constructor (queue: PgCommandQueue)
      ensures this.queue == queue && commits == map[] && writes == []
    {
      this.queue, commits, writes := queue, map[], [];
    }

    method Send(nodes: seq<string>, payload: Payload, priority: int)
      modifies queue
      ensures queue.Tables() == Broadcast(old(queue.Tables()), nodes, payload, priority)
    {
      for i := 0 to |nodes|
        invariant queue.Tables() == Broadcast(old(queue.Tables()), nodes[..i], payload, priority)
      {
        assert nodes[..i + 1][..i] == nodes[..i];
        queue.Enqueue(nodes[i], payload, priority);
      }
      assert nodes[..|nodes|] == nodes;
    }

    /**
     An invalid policy set or a commit identifier already in use throws before anything is written; a fault throws after
     the insert and the commands of the first nodes took effect, or before any of it.
     */
    method Stage(c: string, policies: seq<Policy.NetworkPolicy>, nodes: seq<string>, fault: Fault) returns (ok: bool)
      modifies this, queue
      ensures ok <==> Policy.Compile(policies).Some? && c !in old(commits) && fault.Completes?
      ensures var inserted := Inserts(policies, c in old(commits), fault, |nodes|);
              && commits == (if inserted then old(commits)[c := STAGED] else old(commits))
              && writes == old(writes) + (if inserted then [(c, STAGED)] else [])
              && queue.Tables()
                 == Staged(old(queue.Tables()), c, policies, if inserted then Reached(nodes, fault) else [])
    {
      var compiled := Policy.Compile(policies);
      if compiled.None? || Effective(fault, |nodes| + 1) == 0 || c in commits {
        return false;
      }
      commits := commits[c := STAGED];
      writes := writes + [(c, STAGED)];
      Send(Reached(nodes, fault), ApplyFirewall(Some(c), Policy.RulesJson(policies)), DEFAULT_PRIORITY);
      ok := fault.Completes?;
    }

    method Commit(c: string, fault: Fault) returns (ok: bool)
      requires c in commits
      modifies this
      ensures ok <==> fault.Completes?
      ensures ok ==> commits == old(commits)[c := COMMITTED] && writes == old(writes) + [(c, COMMITTED)]
      ensures || (commits == old(commits) && writes == old(writes))
              || (commits == old(commits)[c := COMMITTED] && writes == old(writes) + [(c, COMMITTED)])
    {
      if Effective(fault, 1) == 1 {
        commits := commits[c := COMMITTED];
        writes := writes + [(c, COMMITTED)];
      }
      ok := fault.Completes?;
    }

    /** A fault throws before the update, or after it and the commands of the first nodes. */
    method Rollback(c: string, nodes: seq<string>, fault: Fault) returns (ok: bool)
      requires c in commits
      modifies this, queue
      ensures ok <==> fault.Completes?
      ensures var updated := Effective(fault, |nodes| + 1) > 0;
              && commits == (if updated then old(commits)[c := CommitStatus.ROLLED_BACK] else old(commits))
              && writes == old(writes) + (if updated then [(c, CommitStatus.ROLLED_BACK)] else [])
              && queue.Tables() == Undone(old(queue.Tables()), c, if updated then Reached(nodes, fault) else [])
    {
      if Effective(fault, |nodes| + 1) == 0 {
        return false;
      }
      commits := commits[c := CommitStatus.ROLLED_BACK];
      writes := writes + [(c, CommitStatus.ROLLED_BACK)];
      Send(Reached(nodes, fault), RollbackFirewall(c), ROLLBACK_PRIORITY);
      ok := fault.Completes?;
    }
  }
}
