/**
 Key-rotation epochs (services/mesh-controller/pg-key-rotation-ledger.ts): read the greatest epoch, insert the next one,
 and start over when the primary key (node_id, epoch) says another rotation was faster. Any number of calls interleave,
 statement by statement.
 */
module KeyRotation {
  import opened Wrappers

  /** A ledger row; `call` names the call that inserted it. Rows are kept in commit order. */
  datatype Row = Row(node: string, epoch: nat, key: string, call: nat)

  function Count(rows: seq<Row>, node: string): nat {
    if rows == [] then 0
    else Count(rows[..|rows| - 1], node) + if rows[|rows| - 1].node == node then 1 else 0
  }

  /** COALESCE(MAX(epoch), 0). */
  function MaxEpoch(rows: seq<Row>, node: string): nat {
    if rows == [] then 0
    else
      var before := MaxEpoch(rows[..|rows| - 1], node);
      var last := rows[|rows| - 1];
      if last.node == node && last.epoch > before then last.epoch else before
  }

  predicate Taken(rows: seq<Row>, node: string, epoch: nat) {
    exists i :: 0 <= i < |rows| && rows[i].node == node && rows[i].epoch == epoch
  }

  /** Every row carries the next epoch of its node: no gap, no repetition, in commit order. */
  ghost predicate Gapless(rows: seq<Row>) {
    forall i :: 0 <= i < |rows| ==> InOrder(rows, i)
  }

  predicate InOrder(rows: seq<Row>, i: nat)
    requires i < |rows|
  {
    rows[i].epoch == Count(rows[..i], rows[i].node) + 1
  }

  // ---------------------------------------------------------------- a gapless ledger

  lemma {:induction false} GaplessMax(rows: seq<Row>, node: string)
    requires Gapless(rows)
    ensures MaxEpoch(rows, node) == Count(rows, node)
  {
    if rows != [] {
      var n := |rows| - 1;
      assert InOrder(rows, n);
      GaplessPrefix(rows, n);
      GaplessMax(rows[..n], node);
    }
  }

  lemma GaplessPrefix(rows: seq<Row>, n: nat)
    requires Gapless(rows) && n <= |rows|
    ensures Gapless(rows[..n])
  {
    forall i | 0 <= i < n
      ensures InOrder(rows[..n], i)
    {
      assert InOrder(rows, i);
      assert rows[..n][..i] == rows[..i];
    }
  }

  lemma {:induction false} CountMonotone(rows: seq<Row>, n: nat, node: string)
    requires n <= |rows|
    ensures Count(rows[..n], node) <= Count(rows, node)
    decreases |rows|
  {
    if n < |rows| {
      CountMonotone(rows[..|rows| - 1], n, node);
      assert rows[..|rows| - 1][..n] == rows[..n];
    } else {
      assert rows[..n] == rows;
    }
  }

  /** Exactly the epochs 1 to the count are taken. */
  lemma {:induction false} GaplessTaken(rows: seq<Row>, node: string, epoch: nat)
    requires Gapless(rows)
    ensures Taken(rows, node, epoch) <==> 1 <= epoch <= Count(rows, node)
  {
    if rows != [] {
      var n := |rows| - 1;
      assert InOrder(rows, n);
      GaplessPrefix(rows, n);
      GaplessTaken(rows[..n], node, epoch);
      if Taken(rows[..n], node, epoch) {
        var i :| 0 <= i < n && rows[..n][i].node == node && rows[..n][i].epoch == epoch;
        assert rows[i].node == node && rows[i].epoch == epoch;
      }
      assert Taken(rows, node, epoch) ==>
        Taken(rows[..n], node, epoch) || (rows[n].node == node && rows[n].epoch == epoch) by {
        assert forall i :: 0 <= i < n ==> rows[..n][i] == rows[i];
      }
    }
  }

  lemma AppendCounts(rows: seq<Row>, row: Row, node: string)
    ensures Count(rows + [row], node) == Count(rows, node) + if row.node == node then 1 else 0
  {
    assert (rows + [row])[..|rows|] == rows;
  }

  lemma GaplessAppend(rows: seq<Row>, row: Row)
    requires Gapless(rows) && row.epoch == Count(rows, row.node) + 1
    ensures Gapless(rows + [row])
  {
    forall i | 0 <= i < |rows + [row]|
      ensures InOrder(rows + [row], i)
    {
      if i < |rows| {
        assert InOrder(rows, i);
        assert (rows + [row])[..i] == rows[..i];
      } else {
        assert (rows + [row])[..i] == rows;
      }
    }
  }

  /** An epoch read earlier is either still the next one or already taken: the primary key catches every lost race. */
  lemma StaleEpochConflicts(rows: seq<Row>, node: string, next: nat)
    requires Gapless(rows) && 1 <= next <= Count(rows, node) + 1
    ensures Taken(rows, node, next) <==> next != Count(rows, node) + 1
  {
    GaplessTaken(rows, node, next);
  }

  // ---------------------------------------------------------------- calls that interleave

  datatype Phase = Reading | Inserting(next: nat) | Acknowledged(epoch: nat) | Abandoned | Failed

  /** A call: its arguments, how many attempts it lost, how many rows the node had when it began, and where it is. */
  datatype Call = Call(node: string, key: string, lost: nat, began: nat, phase: Phase)

  datatype System = System(rows: seq<Row>, calls: map<nat, Call>)

  /** `Breaks`: the connection fails, and an insert under way may or may not have taken effect. */
  datatype Event =
    | Begins(id: nat, node: string, key: string)
    | Reads(id: nat)
    | Inserts(id: nat)
    | Breaks(id: nat, effective: bool)

  const ATTEMPTS := 5

  predicate Enabled(s: System, e: Event) {
    match e
    case Begins(id, _, _) => id !in s.calls
    case Reads(id) => id in s.calls && s.calls[id].phase == Reading
    case Inserts(id) => id in s.calls && s.calls[id].phase.Inserting?
    case Breaks(id, _) => id in s.calls && (s.calls[id].phase == Reading || s.calls[id].phase.Inserting?)
  }

  function Next(s: System, e: Event): System
    requires Enabled(s, e)
  {
    match e
    case Begins(id, node, key) => s.(calls := s.calls[id := Call(node, key, 0, Count(s.rows, node), Reading)])
    case Reads(id) =>
      var c := s.calls[id];
      s.(calls := s.calls[id := c.(phase := Inserting(MaxEpoch(s.rows, c.node) + 1))])
    case Inserts(id) =>
      var c := s.calls[id];
      if Taken(s.rows, c.node, c.phase.next) then
        var phase := if c.lost + 1 < ATTEMPTS then Reading else Abandoned;
        s.(calls := s.calls[id := c.(lost := c.lost + 1, phase := phase)])
      else
        System(s.rows + [Row(c.node, c.phase.next, c.key, id)],
               s.calls[id := c.(phase := Acknowledged(c.phase.next))])
    case Breaks(id, effective) =>
      var c := s.calls[id];
      var rows :=
        if effective && c.phase.Inserting? && !Taken(s.rows, c.node, c.phase.next) then
          s.rows + [Row(c.node, c.phase.next, c.key, id)]
        else s.rows;
      System(rows, s.calls[id := c.(phase := Failed)])
  }

  /** What holds of a call in progress or finished. */
  ghost predicate CallOk(s: System, id: nat)
    requires id in s.calls
  {
    var c := s.calls[id];
    && c.began + c.lost <= Count(s.rows, c.node)
    && c.lost <= ATTEMPTS
    && (c.phase.Reading? ==> c.lost < ATTEMPTS)
    && (c.phase.Inserting? ==> c.lost < ATTEMPTS && c.began + c.lost + 1 <= c.phase.next <= Count(s.rows, c.node) + 1)
    && (c.phase.Acknowledged? ==> Row(c.node, c.phase.epoch, c.key, id) in s.rows)
    && (c.phase.Abandoned? ==> c.lost == ATTEMPTS)
  }

  /** Every row was inserted by its call with that call's arguments, and no call inserted twice. */
  ghost predicate RowsOwned(s: System) {
    && (forall i :: 0 <= i < |s.rows| ==> OwnedRow(s, s.rows[i]))
    && (forall i, j :: 0 <= i < j < |s.rows| ==> s.rows[i].call != s.rows[j].call)
  }

  predicate OwnedRow(s: System, r: Row) {
    && r.call in s.calls
    && s.calls[r.call].node == r.node && s.calls[r.call].key == r.key
    && (s.calls[r.call].phase == Acknowledged(r.epoch) || s.calls[r.call].phase == Failed)
  }

  ghost predicate Inv(s: System) {
    && Gapless(s.rows)
    && (forall id :: id in s.calls ==> CallOk(s, id))
    && RowsOwned(s)
  }

  /** Appending one row keeps every other call's facts. */
  lemma OthersKeep(s: System, t: System, id: nat, other: nat, row: Row)
    requires other in s.calls && other != id && other in t.calls && t.calls[other] == s.calls[other]
    requires CallOk(s, other) && (t.rows == s.rows || t.rows == s.rows + [row])
    ensures CallOk(t, other)
  {
    AppendCounts(s.rows, row, s.calls[other].node);
  }

  lemma OwnedStays(s: System, t: System, id: nat, row: Row)
    requires RowsOwned(s) && id in s.calls && (s.calls[id].phase == Reading || s.calls[id].phase.Inserting?)
    requires forall other :: other in s.calls && other != id ==> other in t.calls && t.calls[other] == s.calls[other]
    requires t.rows == s.rows || (t.rows == s.rows + [row] && row.call == id && OwnedRow(t, row))
    ensures RowsOwned(t)
  {
    forall i | 0 <= i < |s.rows|
      ensures s.rows[i].call != id && OwnedRow(t, s.rows[i])
    {
      assert OwnedRow(s, s.rows[i]);
    }
  }

  lemma InsertInv(s: System, id: nat, phase: Phase)
    requires Inv(s) && id in s.calls && s.calls[id].phase.Inserting?
    requires phase == Acknowledged(s.calls[id].phase.next) || phase == Failed
    requires !Taken(s.rows, s.calls[id].node, s.calls[id].phase.next)
    ensures var c := s.calls[id];
            Inv(System(s.rows + [Row(c.node, c.phase.next, c.key, id)], s.calls[id := c.(phase := phase)]))
  {
    var c := s.calls[id];
    assert CallOk(s, id);
    var row := Row(c.node, c.phase.next, c.key, id);
    var t := System(s.rows + [row], s.calls[id := c.(phase := phase)]);
    StaleEpochConflicts(s.rows, c.node, c.phase.next);
    GaplessAppend(s.rows, row);
    AppendCounts(s.rows, row, c.node);
    forall other | other in t.calls
      ensures CallOk(t, other)
    {
      if other != id {
        OthersKeep(s, t, id, other, row);
      } else {
        assert t.rows[|s.rows|] == row;
      }
    }
    OwnedStays(s, t, id, row);
  }

  /** A step that inserts nothing and changes one call only. */
  lemma CallInv(s: System, id: nat, c: Call)
    requires Inv(s)
    requires id in s.calls ==> s.calls[id].phase == Reading || s.calls[id].phase.Inserting?
    requires CallOk(System(s.rows, s.calls[id := c]), id)
    ensures Inv(System(s.rows, s.calls[id := c]))
  {
    var t := System(s.rows, s.calls[id := c]);
    forall other | other in t.calls && other != id
      ensures CallOk(t, other)
    {
      OthersKeep(s, t, id, other, Row("", 0, "", 0));
    }
    forall i | 0 <= i < |s.rows|
      ensures OwnedRow(t, s.rows[i])
    {
      assert OwnedRow(s, s.rows[i]);
    }
  }

  lemma ReadInv(s: System, id: nat)
    requires Inv(s) && Enabled(s, Reads(id))
    ensures Inv(Next(s, Reads(id)))
  {
    var c := s.calls[id];
    assert CallOk(s, id);
    GaplessMax(s.rows, c.node);
    CallInv(s, id, c.(phase := Inserting(MaxEpoch(s.rows, c.node) + 1)));
  }

  lemma ConflictInv(s: System, id: nat)
    requires Inv(s) && Enabled(s, Inserts(id)) && Taken(s.rows, s.calls[id].node, s.calls[id].phase.next)
    ensures Inv(Next(s, Inserts(id)))
  {
    var c := s.calls[id];
    assert CallOk(s, id);
    StaleEpochConflicts(s.rows, c.node, c.phase.next);
    CallInv(s, id, c.(lost := c.lost + 1, phase := if c.lost + 1 < ATTEMPTS then Reading else Abandoned));
  }

  lemma BreakInv(s: System, id: nat)
    requires Inv(s) && Enabled(s, Breaks(id, false))
    ensures Inv(System(s.rows, s.calls[id := s.calls[id].(phase := Failed)]))
  {
    assert CallOk(s, id);
    CallInv(s, id, s.calls[id].(phase := Failed));
  }

  lemma StepInv(s: System, e: Event)
    requires Inv(s) && Enabled(s, e)
    ensures Inv(Next(s, e))
  {
    match e
    case Begins(id, node, key) =>
      CallInv(s, id, Call(node, key, 0, Count(s.rows, node), Reading));
    case Reads(id) =>
      ReadInv(s, id);
    case Inserts(id) =>
      if Taken(s.rows, s.calls[id].node, s.calls[id].phase.next) {
        ConflictInv(s, id);
      } else {
        InsertInv(s, id, Acknowledged(s.calls[id].phase.next));
      }
    case Breaks(id, effective) =>
      var c := s.calls[id];
      if effective && c.phase.Inserting? && !Taken(s.rows, c.node, c.phase.next) {
        InsertInv(s, id, Failed);
      } else {
        BreakInv(s, id);
      }
  }

  ghost predicate IsRun(run: seq<System>, events: seq<Event>) {
    && |run| == |events| + 1
    && run[0] == System([], map[])
    && forall i :: 0 <= i < |events| ==> Enabled(run[i], events[i]) && run[i + 1] == Next(run[i], events[i])
  }

  lemma {:induction false} RunInv(run: seq<System>, events: seq<Event>, i: nat)
    requires IsRun(run, events) && i < |run|
    ensures Inv(run[i])
  {
    if i > 0 {
      RunInv(run, events, i - 1);
      StepInv(run[i - 1], events[i - 1]);
    }
  }

  // ---------------------------------------------------------------- what every interleaving guarantees

  /** In every reachable state a node's epochs are exactly 1..k, each once, in commit order. */
  lemma EpochsAreConsecutive(run: seq<System>, events: seq<Event>, i: nat, node: string, epoch: nat)
    requires IsRun(run, events) && i < |run|
    ensures Gapless(run[i].rows)
    ensures Taken(run[i].rows, node, epoch) <==> 1 <= epoch <= Count(run[i].rows, node)
  {
    RunInv(run, events, i);
    GaplessTaken(run[i].rows, node, epoch);
  }

  lemma {:induction false} SameEpochSameRow(rows: seq<Row>, i: nat, j: nat)
    requires Gapless(rows) && i < j < |rows| && rows[i].node == rows[j].node
    ensures rows[i].epoch < rows[j].epoch
  {
    assert InOrder(rows, i) && InOrder(rows, j);
    assert rows[..i + 1][..i] == rows[..i];
    assert rows[..j][..i + 1] == rows[..i + 1];
    CountMonotone(rows[..j], i + 1, rows[i].node);
  }

  /** Two rotations of one node are never told the same epoch, and each one's key is what the ledger holds for it. */
  lemma AcknowledgedEpochsDiffer(run: seq<System>, events: seq<Event>, i: nat, a: nat, b: nat)
    requires IsRun(run, events) && i < |run|
    requires a in run[i].calls && b in run[i].calls && a != b
    requires run[i].calls[a].phase.Acknowledged? && run[i].calls[b].phase.Acknowledged?
    requires run[i].calls[a].node == run[i].calls[b].node
    ensures run[i].calls[a].phase.epoch != run[i].calls[b].phase.epoch
  {
    var s := run[i];
    RunInv(run, events, i);
    assert CallOk(s, a) && CallOk(s, b);
    var x :| 0 <= x < |s.rows| && s.rows[x] == Row(s.calls[a].node, s.calls[a].phase.epoch, s.calls[a].key, a);
    var y :| 0 <= y < |s.rows| && s.rows[y] == Row(s.calls[b].node, s.calls[b].phase.epoch, s.calls[b].key, b);
    if x < y {
      SameEpochSameRow(s.rows, x, y);
    } else {
      SameEpochSameRow(s.rows, y, x);
    }
  }

  /** A call gives up only after five other rotations of the same node committed while it was under way. */
  lemma GiveUpMeansFiveOthersWon(run: seq<System>, events: seq<Event>, i: nat, id: nat)
    requires IsRun(run, events) && i < |run| && id in run[i].calls && run[i].calls[id].phase == Abandoned
    ensures Count(run[i].rows, run[i].calls[id].node) >= run[i].calls[id].began + 5
    ensures forall j :: 0 <= j < |run[i].rows| ==> run[i].rows[j].call != id
  {
    RunInv(run, events, i);
    assert CallOk(run[i], id);
    forall j | 0 <= j < |run[i].rows|
      ensures run[i].rows[j].call != id
    {
      assert OwnedRow(run[i], run[i].rows[j]);
    }
  }

  /** The ledger is append-only: no step rewrites or removes a row. */
  lemma {:induction false} LedgerOnlyGrows(run: seq<System>, events: seq<Event>, i: nat, j: nat)
    requires IsRun(run, events) && i <= j < |run|
    ensures run[i].rows <= run[j].rows
    decreases j
  {
    if i < j {
      LedgerOnlyGrows(run, events, i, j - 1);
      assert Enabled(run[j - 1], events[j - 1]);
    }
  }

  /** What a caller was told stays in the ledger: the key it presented, under the epoch it was given. */
  lemma AcknowledgedStaysRecorded(run: seq<System>, events: seq<Event>, i: nat, j: nat, id: nat)
    requires IsRun(run, events) && i <= j < |run| && id in run[i].calls && run[i].calls[id].phase.Acknowledged?
    ensures var c := run[i].calls[id];
            Row(c.node, c.phase.epoch, c.key, id) in run[j].rows
  {
    RunInv(run, events, i);
    assert CallOk(run[i], id);
    LedgerOnlyGrows(run, events, i, j);
  }

  // ---------------------------------------------------------------- one call, seen from inside

  /** The ledger after other calls rotated this node to these keys, one after the other. */
  function WithOthers(rows: seq<Row>, node: string, keys: seq<string>): seq<Row> {
    if keys == [] then rows
    else
      var before := WithOthers(rows, node, keys[..|keys| - 1]);
      before + [Row(node, Count(before, node) + 1, keys[|keys| - 1], 0)]
  }

  lemma {:induction false} OthersAppend(rows: seq<Row>, node: string, keys: seq<string>)
    requires Gapless(rows)
    ensures Gapless(WithOthers(rows, node, keys))
    ensures Count(WithOthers(rows, node, keys), node) == Count(rows, node) + |keys|
  {
    if keys != [] {
      var init := keys[..|keys| - 1];
      OthersAppend(rows, node, init);
      NextRow(WithOthers(rows, node, init), Row(node, Count(WithOthers(rows, node, init), node) + 1, keys[|init|], 0));
    }
  }

  lemma {:induction false} OthersExtend(rows: seq<Row>, node: string, keys: seq<string>)
    ensures rows <= WithOthers(rows, node, keys)
  {
    if keys != [] {
      OthersExtend(rows, node, keys[..|keys| - 1]);
    }
  }

  lemma NextRow(rows: seq<Row>, row: Row)
    requires Gapless(rows) && row.epoch == Count(rows, row.node) + 1
    ensures Gapless(rows + [row]) && Count(rows + [row], row.node) == row.epoch
  {
    GaplessAppend(rows, row);
    AppendCounts(rows, row, row.node);
  }

  /** An attempt loses exactly when another call committed between its read and its insert. */
  lemma AttemptLosesIffRaced(rows: seq<Row>, node: string, keys: seq<string>)
    requires Gapless(rows)
    ensures Taken(WithOthers(rows, node, keys), node, MaxEpoch(rows, node) + 1) <==> keys != []
    ensures keys == [] ==> MaxEpoch(rows, node) + 1 == Count(rows, node) + 1
  {
    GaplessMax(rows, node);
    OthersAppend(rows, node, keys);
    StaleEpochConflicts(WithOthers(rows, node, keys), node, MaxEpoch(rows, node) + 1);
  }

  class PgKeyRotationLedger {
    var rows: seq<Row>

    constructor ()
      ensures rows == []
    {
      rows := [];
    }

    /**
     Other calls commit `before(i)` ahead of attempt `i`'s read and `others(i)` between its read and its insert; at
     attempt `breaks.attempt` the connection fails, its insert having taken effect or not.
     */
    method Rotate(id: nat, node: string, key: string, before: nat -> seq<string>, others: nat -> seq<string>,
                  breaks: Option<Break>)
      returns (r: RotateResult)
      requires Gapless(rows)
      modifies this
      ensures Gapless(rows) && old(rows) <= rows
      ensures r.Thrown? <==> breaks.Some? && breaks.value.attempt < ATTEMPTS && Raced(others, breaks.value.attempt)
      ensures r.GaveUp? <==> Raced(others, ATTEMPTS) && !(breaks.Some? && breaks.value.attempt < ATTEMPTS)
      ensures r.Told? ==> |rows| > 0 && rows[|rows| - 1] == Row(node, r.epoch, key, id) && r.epoch == Count(rows, node)
      ensures r.GaveUp? ==> Count(rows, node) >= Count(old(rows), node) + 5
    {
      for attempt := 0 to ATTEMPTS
        invariant Gapless(rows) && old(rows) <= rows
        invariant Raced(others, attempt) && (breaks.Some? ==> breaks.value.attempt >= attempt)
        invariant Count(rows, node) >= Count(old(rows), node) + attempt
      {
        var broken := if breaks.Some? && breaks.value.attempt == attempt then Some(breaks.value.effective) else None;
        var ended := Attempt(id, node, key, before(attempt), others(attempt), broken);
        if ended.Some? {
          return ended.value;
        }
      }
      return GaveUp;
    }

    /** One read and one insert; none when the insert lost its race. `broken` is a failing connection, as above. */
    method Attempt(id: nat, node: string, key: string, before: seq<string>, others: seq<string>, broken: Option<bool>)
      returns (r: Option<RotateResult>)
      requires Gapless(rows)
      modifies this
      ensures Gapless(rows) && old(rows) <= rows
      ensures r == Some(Thrown) <==> broken.Some?
      ensures r == None <==> broken.None? && others != []
      ensures r != Some(GaveUp)
      ensures r.Some? && r.value.Told? ==>
        |rows| > 0 && rows[|rows| - 1] == Row(node, r.value.epoch, key, id) && r.value.epoch == Count(rows, node)
      ensures r == None ==> Count(rows, node) >= Count(old(rows), node) + 1
    {
      Interfere(node, before);
      var next := MaxEpoch(rows, node) + 1;
      AttemptLosesIffRaced(rows, node, others);
      Interfere(node, others);
      var taken := Taken(rows, node, next);
      if broken.Some? {
        if broken.value && !taken {
          Insert(Row(node, next, key, id));
        }
        return Some(Thrown);
      }
      if taken {
        return None;
      }
      Insert(Row(node, next, key, id));
      r := Some(Told(next));
    }

    /** Other calls rotate the node to these keys. */
    method Interfere(node: string, keys: seq<string>)
      requires Gapless(rows)
      modifies this
      ensures rows == WithOthers(old(rows), node, keys) && Gapless(rows) && old(rows) <= rows
      ensures Count(rows, node) == Count(old(rows), node) + |keys|
    {
      OthersAppend(rows, node, keys);
      OthersExtend(rows, node, keys);
      rows := WithOthers(rows, node, keys);
    }

    method Insert(row: Row)
      requires Gapless(rows) && row.epoch == Count(rows, row.node) + 1
      modifies this
      ensures rows == old(rows) + [row] && Gapless(rows) && Count(rows, row.node) == row.epoch
    {
      NextRow(rows, row);
      rows := rows + [row];
    }
  }

  datatype Break = Break(attempt: nat, effective: bool)

  datatype RotateResult = Told(epoch: nat) | GaveUp | Thrown

  /** Every one of the first `n` attempts lost its race. */
  ghost predicate Raced(others: nat -> seq<string>, n: nat) {
    forall i :: 0 <= i < n ==> others(i) != []
  }
}
