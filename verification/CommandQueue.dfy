/**
 The durable command queue and its acknowledgement log (services/mesh-controller/pg-command-queue.ts).
 Rows are kept in issue order, so a row's index stands for its identifier and its `issued_at`; acknowledgements are
 kept in the order they arrive. Every statement is one atomic step.
 */
module CommandQueue {
  import opened CanonicalJson
  import opened Routes
  import opened StableSort
  import opened Wrappers

  datatype Kind =
    | SET_KILL_SWITCH | SET_DNS | APPLY_WIREGUARD | APPLY_PEERS | APPLY_FIREWALL | ROLLBACK_FIREWALL
    | QUARANTINE | RESTORE | ROTATE_IDENTITY_REQUIRED | RECONCILE | UNSUPPORTED

  datatype Payload =
    | SetKillSwitch(enabled: bool)
    | SetDns(servers: seq<string>)
    | ApplyWireGuard(config: Json)
    | ApplyPeers(peers: Json)
    | ApplyFirewall(commitId: Option<string>, rules: Json)
    | RollbackFirewall(rolledBack: string)
    | Quarantine(reason: string)
    | Restore
    | RotateIdentityRequired
    | Reconcile(revision: nat, routes: seq<Route>, firewall: Json, integrity: map<string, string>)
    | Unsupported(name: string)
  {
    function Kind(): Kind {
      match this
      case SetKillSwitch(_) => SET_KILL_SWITCH
      case SetDns(_) => SET_DNS
      case ApplyWireGuard(_) => APPLY_WIREGUARD
      case ApplyPeers(_) => APPLY_PEERS
      case ApplyFirewall(_, _) => APPLY_FIREWALL
      case RollbackFirewall(_) => ROLLBACK_FIREWALL
      case Quarantine(_) => QUARANTINE
      case Restore => RESTORE
      case RotateIdentityRequired => ROTATE_IDENTITY_REQUIRED
      case Reconcile(_, _, _, _) => RECONCILE
      case Unsupported(_) => UNSUPPORTED
    }
  }

  datatype Command = Command(node: string, payload: Payload, priority: int, acked: bool)

  datatype Status = SUCCEEDED | FAILED | ACKNOWLEDGED

  /** What an acknowledgement reports: failure, bare success, a success echoing a value, or no boolean `ok` at all. */
  datatype Details =
    | Error
    | Done
    | KillSwitchEcho(enabled: bool)
    | DnsEcho(servers: seq<string>)
    | PeersEcho(topologyHash: string)
    | FirewallEcho(commitId: Option<string>, firewallHash: string)
    | ReconcileEcho(stale: bool, revision: nat)
    | Ambiguous
  {
    function Status(): Status {
      match this
      case Error => FAILED
      case Ambiguous => ACKNOWLEDGED
      case _ => SUCCEEDED
    }
  }

  datatype Ack = Ack(command: nat, node: string, kind: Kind, status: Status, details: Details)

  datatype Queue = Queue(commands: seq<Command>, acks: seq<Ack>)

  const DEFAULT_PRIORITY := 100

  // ---------------------------------------------------------------- statements as functions of the tables

  function Enqueued(q: Queue, node: string, payload: Payload, priority: int): Queue {
    q.(commands := q.commands + [Command(node, payload, priority, false)])
  }

  predicate Reports(a: Ack, node: string, kind: Kind) {
    a.node == node && a.kind == kind && a.status == SUCCEEDED
  }

  /** The most recent successful acknowledgement of a kind of command. */
  function LatestOk(acks: seq<Ack>, node: string, kind: Kind): Option<Details> {
    if acks == [] then None
    else
      var last := acks[|acks| - 1];
      if Reports(last, node, kind) then Some(last.details) else LatestOk(acks[..|acks| - 1], node, kind)
  }

  lemma LatestOkAppend(acks: seq<Ack>, a: Ack, node: string, kind: Kind)
    ensures LatestOk(acks + [a], node, kind)
         == if Reports(a, node, kind) then Some(a.details) else LatestOk(acks, node, kind)
  {
    assert (acks + [a])[..|acks|] == acks;
  }

  predicate Waiting(commands: seq<Command>, node: string, id: nat) {
    id < |commands| && commands[id].node == node && !commands[id].acked
  }

  function WaitingBelow(commands: seq<Command>, node: string, n: nat): seq<nat>
    requires n <= |commands|
  {
    if n == 0 then []
    else WaitingBelow(commands, node, n - 1) + (if Waiting(commands, node, n - 1) then [n - 1] else [])
  }

  function Priorities(commands: seq<Command>): seq<int> {
    seq(|commands|, i requires 0 <= i < |commands| => commands[i].priority)
  }

  function PriorityOf(priorities: seq<int>, id: nat): int {
    if id < |priorities| then priorities[id] else 0
  }

  /** `ORDER BY priority DESC, issued_at`. */
  function Urgency(priorities: seq<int>): (nat, nat) -> bool {
    (a: nat, b: nat) =>
      PriorityOf(priorities, a) > PriorityOf(priorities, b)
      || (PriorityOf(priorities, a) == PriorityOf(priorities, b) && a < b)
  }

  /** All unacknowledged commands of a node, in delivery order. */
  function PendingIds(commands: seq<Command>, node: string): seq<nat> {
    Sort(WaitingBelow(commands, node, |commands|), Urgency(Priorities(commands)))
  }

  function Take<T>(s: seq<T>, n: nat): seq<T> {
    if n < |s| then s[..n] else s
  }

  /** Both statements of `acknowledge`; the second insert of one command violates the log's key and throws. */
  function Acknowledged(q: Queue, id: nat, details: Details): (Queue, bool) {
    if id >= |q.commands| then (q, true)
    else
      var c := q.commands[id];
      var q' := q.(commands := q.commands[id := c.(acked := true)]);
      if exists a :: a in q.acks && a.command == id then (q', false)
      else (q'.(acks := q.acks + [Ack(id, c.node, c.payload.Kind(), details.Status(), details)]), true)
  }

  class PgCommandQueue {
    var commands: seq<Command>
    var acks: seq<Ack>

    function Tables(): Queue
      reads this
    {
      Queue(commands, acks)
    }

    constructor ()
      ensures Tables() == Queue([], [])
    {
      commands, acks := [], [];
    }

    method Enqueue(node: string, payload: Payload, priority: int := DEFAULT_PRIORITY)
      modifies this
      ensures Tables() == Enqueued(old(Tables()), node, payload, priority)
    {
      commands := commands + [Command(node, payload, priority, false)];
    }

    method HasPending(node: string, kind: Kind) returns (found: bool)
      ensures found <==> exists id: nat :: Waiting(commands, node, id) && commands[id].payload.Kind() == kind
    {
      found := false;
      for i := 0 to |commands|
        invariant found <==>
          exists id: nat :: id < i && Waiting(commands, node, id) && commands[id].payload.Kind() == kind
      {
        if commands[i].node == node && !commands[i].acked && commands[i].payload.Kind() == kind {
          assert Waiting(commands, node, i);
          found := true;
        }
      }
    }

    method Pending(node: string, limit: nat := 20) returns (ids: seq<nat>)
      ensures ids == Take(PendingIds(commands, node), limit)
      ensures ids <= PendingIds(commands, node) && |ids| <= limit
      ensures |ids| < limit ==> ids == PendingIds(commands, node)
      ensures forall i :: 0 <= i < |ids| ==> Waiting(commands, node, ids[i])
    {
      ids := Take(PendingIds(commands, node), limit);
      forall i | 0 <= i < |ids|
        ensures Waiting(commands, node, ids[i])
      {
        PendingIsWaiting(commands, node, ids[i]);
        assert ids[i] == PendingIds(commands, node)[i];
      }
    }

    method Acknowledge(id: nat, details: Details) returns (ok: bool)
      modifies this
      ensures (Tables(), ok) == Acknowledged(old(Tables()), id, details)
      ensures ok <==> id >= |old(commands)| || forall a :: a in old(acks) ==> a.command != id
    {
      if id >= |commands| {
        return true;
      }
      var c := commands[id];
      commands := commands[id := c.(acked := true)];
      if exists a :: a in acks && a.command == id {
        return false;
      }
      acks := acks + [Ack(id, c.node, c.payload.Kind(), details.Status(), details)];
      return true;
    }

    method LatestAcknowledgement(node: string, kind: Kind) returns (r: Option<Details>)
      ensures r == LatestOk(acks, node, kind)
    {
      var n := |acks|;
      assert acks[..n] == acks;
      while n > 0
        invariant 0 <= n <= |acks|
        invariant LatestOk(acks, node, kind) == LatestOk(acks[..n], node, kind)
      {
        if Reports(acks[n - 1], node, kind) {
          return Some(acks[n - 1].details);
        }
        assert acks[..n][..n - 1] == acks[..n - 1];
        n := n - 1;
      }
      r := None;
    }
  }

  // ---------------------------------------------------------------- delivery order

  lemma {:induction false} WaitingBelowIs(commands: seq<Command>, node: string, n: nat)
    requires n <= |commands|
    ensures forall id: nat :: id in WaitingBelow(commands, node, n) <==> id < n && Waiting(commands, node, id)
    ensures forall i, j :: 0 <= i < j < |WaitingBelow(commands, node, n)| ==>
      WaitingBelow(commands, node, n)[i] < WaitingBelow(commands, node, n)[j]
  {
    if n > 0 {
      WaitingBelowIs(commands, node, n - 1);
      var before := WaitingBelow(commands, node, n - 1);
      forall i | 0 <= i < |before|
        ensures before[i] < n - 1
      {
        assert before[i] in before;
      }
    }
  }

  lemma PendingIsWaiting(commands: seq<Command>, node: string, id: nat)
    ensures id in PendingIds(commands, node) <==> Waiting(commands, node, id)
  {
    WaitingBelowIs(commands, node, |commands|);
    SortPermutes(WaitingBelow(commands, node, |commands|), Urgency(Priorities(commands)));
  }

  lemma UrgencyIsOrder(priorities: seq<int>)
    ensures WeakOrder(Urgency(priorities)) && forall s :: NoTies(s, Urgency(priorities))
  {
    var lt := Urgency(priorities);
    assert forall x, y :: lt(x, y) <==>
      PriorityOf(priorities, x) > PriorityOf(priorities, y)
      || (PriorityOf(priorities, x) == PriorityOf(priorities, y) && x < y);
  }

  lemma PendingSorted(commands: seq<Command>, node: string)
    ensures Sorted(PendingIds(commands, node), Urgency(Priorities(commands)))
    ensures Distinct(PendingIds(commands, node))
  {
    var waiting := WaitingBelow(commands, node, |commands|);
    UrgencyIsOrder(Priorities(commands));
    SortSorts(waiting, Urgency(Priorities(commands)));
    WaitingBelowIs(commands, node, |commands|);
    SortDistinct(waiting, Urgency(Priorities(commands)));
  }

  /** Acknowledging the most urgent command leaves exactly the rest of the delivery order. */
  lemma AckedHeadLeavesTail(commands: seq<Command>, node: string, after: seq<Command>)
    requires PendingIds(commands, node) != [] && Waiting(commands, node, PendingIds(commands, node)[0])
    requires var id := PendingIds(commands, node)[0]; after == commands[id := commands[id].(acked := true)]
    ensures PendingIds(after, node) == PendingIds(commands, node)[1..]
  {
    var p, r := PendingIds(commands, node), PendingIds(after, node);
    assert Priorities(after) == Priorities(commands);
    UrgencyIsOrder(Priorities(commands));
    PendingSorted(commands, node);
    PendingSorted(after, node);
    TailMembers(p);
    forall id: nat
      ensures id in p[1..] <==> id in r
    {
      PendingIsWaiting(commands, node, id);
      PendingIsWaiting(after, node, id);
    }
    DistinctSortedUnique(p[1..], r, Urgency(Priorities(commands)));
  }
}
