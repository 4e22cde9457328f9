/**
 Per-node rollout rows (src/infrastructure/pg-rollout-store.ts over db/018_policy_rollout_nodes.sql). A port call may
 throw; it then has carried out some prefix of its statements, each of which is atomic.
 */
module RolloutStore {
  import CommandQueue
  import opened Wrappers

  datatype RowStatus = PENDING | SUCCEEDED | FAILED | TIMED_OUT | ROLLED_BACK

  datatype Key = Key(commit: string, node: string)

  type Rows = map<Key, RowStatus>

  /** How a port call ends: it completes, or throws after this many of its writing statements took effect. */
  datatype Fault = Completes | Throws(effective: nat)

  function Effective(fault: Fault, statements: nat): nat {
    if fault.Throws? && fault.effective < statements then fault.effective else statements
  }

  // ---------------------------------------------------------------- statements as functions of the table

  function Started(rows: Rows, c: string, nodes: seq<string>): Rows {
    if nodes == [] then rows
    else
      var before := Started(rows, c, nodes[..|nodes| - 1]);
      var key := Key(c, nodes[|nodes| - 1]);
      if key in before then before else before[key := PENDING]
  }

  /** The acknowledgements `refresh` selects: those of APPLY_FIREWALL that name this commit. */
  predicate Answers(a: CommandQueue.Ack, c: string) {
    a.kind == CommandQueue.APPLY_FIREWALL && a.details.FirewallEcho? && a.details.commitId == Some(c)
  }

  function Selected(acks: seq<CommandQueue.Ack>, c: string): seq<CommandQueue.Ack> {
    if acks == [] then []
    else
      Selected(acks[..|acks| - 1], c) + if Answers(acks[|acks| - 1], c) then [acks[|acks| - 1]] else []
  }

  /** Anything other than SUCCEEDED counts as a failure. */
  function Judged(a: CommandQueue.Ack): RowStatus {
    if a.status == CommandQueue.SUCCEEDED then SUCCEEDED else FAILED
  }

  function Advance(rows: Rows, c: string, a: CommandQueue.Ack): Rows {
    var key := Key(c, a.node);
    if key in rows && rows[key] == PENDING then rows[key := Judged(a)] else rows
  }

  function AdvanceAll(rows: Rows, c: string, acks: seq<CommandQueue.Ack>): Rows {
    if acks == [] then rows else Advance(AdvanceAll(rows, c, acks[..|acks| - 1]), c, acks[|acks| - 1])
  }

  function Refreshed(rows: Rows, c: string, acks: seq<CommandQueue.Ack>): Rows {
    AdvanceAll(rows, c, Selected(acks, c))
  }

  function Finalized(rows: Rows, c: string): Rows {
    map key | key in rows :: if key.commit == c && rows[key] == PENDING then TIMED_OUT else rows[key]
  }

  function Reverted(rows: Rows, c: string): Rows {
    map key | key in rows :: if key.commit == c then ROLLED_BACK else rows[key]
  }

  /** The nodes of a commit whose row has a status. */
  function WithStatus(rows: Rows, c: string, status: RowStatus): set<string> {
    set key | key in rows && key.commit == c && rows[key] == status :: key.node
  }

  function NodesOf(rows: Rows, c: string): set<string> {
    set key | key in rows && key.commit == c :: key.node
  }

  class PgRolloutStore {
    var rows: Rows

    constructor ()
      ensures rows == map[]
    {
      rows := map[];
    }

    method Start(c: string, nodes: seq<string>, fault: Fault) returns (ok: bool)
      modifies this
      ensures ok <==> fault.Completes?
      ensures rows == Started(old(rows), c, nodes[..Effective(fault, |nodes|)])
    {
      var n := Effective(fault, |nodes|);
      for i := 0 to n
        invariant rows == Started(old(rows), c, nodes[..i])
      {
        assert nodes[..i + 1][..i] == nodes[..i];
        var key := Key(c, nodes[i]);
        if key !in rows {
          rows := rows[key := PENDING];
        }
      }
      ok := fault.Completes?;
    }

    method Refresh(c: string, acks: seq<CommandQueue.Ack>, fault: Fault) returns (ok: bool)
      modifies this
      ensures ok <==> fault.Completes?
      ensures rows == AdvanceAll(old(rows), c, Selected(acks, c)[..Effective(fault, |Selected(acks, c)|)])
      ensures ok ==> rows == Refreshed(old(rows), c, acks)
    {
      var selected := Selected(acks, c);
      var n := Effective(fault, |selected|);
      for i := 0 to n
        invariant rows == AdvanceAll(old(rows), c, selected[..i])
      {
        assert selected[..i + 1][..i] == selected[..i];
        var key := Key(c, selected[i].node);
        if key in rows && rows[key] == PENDING {
          rows := rows[key := Judged(selected[i])];
        }
      }
      ok := fault.Completes?;
      assert selected[..|selected|] == selected;
    }

    method FinalizeTimeouts(c: string, fault: Fault) returns (ok: bool)
      modifies this
      ensures ok <==> fault.Completes?
      ensures rows == if Effective(fault, 1) == 1 then Finalized(old(rows), c) else old(rows)
    {
      if Effective(fault, 1) == 1 {
        rows := map key | key in rows :: if key.commit == c && rows[key] == PENDING then TIMED_OUT else rows[key];
      }
      ok := fault.Completes?;
    }

    method MarkRolledBack(c: string, fault: Fault) returns (ok: bool)
      modifies this
      ensures ok <==> fault.Completes?
      ensures rows == if Effective(fault, 1) == 1 then Reverted(old(rows), c) else old(rows)
    {
      if Effective(fault, 1) == 1 {
        rows := map key | key in rows :: if key.commit == c then ROLLED_BACK else rows[key];
      }
      ok := fault.Completes?;
    }
  }

  // ---------------------------------------------------------------- what the statements keep

  /** Rows that left PENDING keep their status, no row appears or disappears, other commits are untouched. */
  ghost predicate Later(old_: Rows, new_: Rows, c: string) {
    && new_.Keys == old_.Keys
    && forall key :: key in old_ && (key.commit != c || old_[key] != PENDING) ==> new_[key] == old_[key]
  }

  lemma LaterTransitive(a: Rows, b: Rows, d: Rows, c: string)
    requires Later(a, b, c) && Later(b, d, c)
    ensures Later(a, d, c)
  {
  }

  lemma {:induction false} AdvanceAllLater(rows: Rows, c: string, acks: seq<CommandQueue.Ack>)
    ensures Later(rows, AdvanceAll(rows, c, acks), c)
  {
    if acks != [] {
      AdvanceAllLater(rows, c, acks[..|acks| - 1]);
      var before := AdvanceAll(rows, c, acks[..|acks| - 1]);
      assert Later(before, Advance(before, c, acks[|acks| - 1]), c);
    }
  }

  /** A row only leaves PENDING for the verdict of an acknowledgement that answers this commit for that node. */
  lemma {:induction false} AdvancedByAck(rows: Rows, c: string, acks: seq<CommandQueue.Ack>, key: Key)
    requires key in rows && key in AdvanceAll(rows, c, acks) && AdvanceAll(rows, c, acks)[key] != rows[key]
    ensures exists a :: a in acks && a.node == key.node && Judged(a) == AdvanceAll(rows, c, acks)[key]
  {
    if acks != [] {
      var init, last := acks[..|acks| - 1], acks[|acks| - 1];
      AdvanceAllLater(rows, c, init);
      var before := AdvanceAll(rows, c, init);
      if before[key] != rows[key] {
        AdvancedByAck(rows, c, init, key);
      } else {
        assert last in acks && last.node == key.node;
      }
    }
  }

  lemma {:induction false} SelectedAnswers(acks: seq<CommandQueue.Ack>, c: string)
    ensures forall a :: a in Selected(acks, c) <==> a in acks && Answers(a, c)
  {
    if acks != [] {
      SelectedAnswers(acks[..|acks| - 1], c);
      assert forall a :: a in acks <==> a in acks[..|acks| - 1] || a == acks[|acks| - 1];
    }
  }

  /** `start` adds exactly the missing rows of the targeted nodes, as PENDING. */
  lemma {:induction false} StartedRows(rows: Rows, c: string, nodes: seq<string>)
    ensures var after := Started(rows, c, nodes);
            && (forall key :: key in after <==> key in rows || (key.commit == c && key.node in nodes))
            && (forall key :: key in after ==> after[key] == if key in rows then rows[key] else PENDING)
  {
    if nodes != [] {
      StartedRows(rows, c, nodes[..|nodes| - 1]);
      assert forall n :: n in nodes <==> n in nodes[..|nodes| - 1] || n == nodes[|nodes| - 1];
    }
  }

  lemma SubsetSize<T>(a: set<T>, b: set<T>)
    requires a <= b
    ensures |a| <= |b|
  {
    assert b == a + (b - a);
  }

  /** Failures only accumulate. */
  lemma FailuresGrow(a: Rows, b: Rows, c: string)
    requires Later(a, b, c)
    ensures WithStatus(a, c, FAILED) <= WithStatus(b, c, FAILED)
    ensures |WithStatus(a, c, FAILED)| <= |WithStatus(b, c, FAILED)|
  {
    forall n | n in WithStatus(a, c, FAILED)
      ensures n in WithStatus(b, c, FAILED)
    {
      assert Key(c, n) in a;
    }
    SubsetSize(WithStatus(a, c, FAILED), WithStatus(b, c, FAILED));
  }

  lemma SettledRowsFrozen(a: Rows, b: Rows, c: string)
    requires Later(a, b, c) && WithStatus(a, c, PENDING) == {}
    ensures a == b
  {
    forall key | key in a
      ensures a[key] == b[key]
    {
      assert key.commit == c && a[key] == PENDING ==> key.node in WithStatus(a, c, PENDING);
    }
  }
}
