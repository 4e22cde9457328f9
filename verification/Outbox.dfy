/**
 Draining the transactional outbox (src/infrastructure/postgres/outbox.ts, src/infrastructure/postgres/client.ts): any
 number of dispatchers claim unpublished rows with FOR UPDATE SKIP LOCKED, send them one by one and record the result,
 all in one transaction that may be rolled back at any point. Rows are kept in creation order.
 */
module Outbox {
  import opened StableSort
  import opened Wrappers

  datatype Row = Row(published: bool, attempts: nat)

  /** One attempt to send a row, by a dispatcher's transaction. */
  datatype Send = Send(row: nat, tx: nat, ok: bool)

  /** A transaction under way: the rows it locked, and the results it has recorded for the first of them. */
  datatype Tx = Tx(batch: seq<nat>, done: seq<bool>)

  /** `ended` tells of each finished transaction whether it committed. */
  datatype System = System(rows: seq<Row>, txs: map<nat, Tx>, ended: map<nat, bool>, sends: seq<Send>)

  datatype Event =
    | Publishes
    | Begins(tx: nat, limit: nat)
    | Sends(tx: nat, ok: bool)
    | Commits(tx: nat)
    | Aborts(tx: nat)

  // ---------------------------------------------------------------- claiming rows

  predicate Locked(txs: map<nat, Tx>, row: nat) {
    exists tx :: tx in txs && row in txs[tx].batch
  }

  /** The unpublished, unlocked rows among the first `n`, oldest first. */
  function Claimable(rows: seq<Row>, txs: map<nat, Tx>, n: nat): seq<nat>
    requires n <= |rows|
  {
    if n == 0 then []
    else
      var before := Claimable(rows, txs, n - 1);
      if rows[n - 1].published || Locked(txs, n - 1) then before else before + [n - 1]
  }

  function Claimed(s: System, limit: nat): seq<nat> {
    var free := Claimable(s.rows, s.txs, |s.rows|);
    if limit < |free| then free[..limit] else free
  }

  // ---------------------------------------------------------------- the steps

  /** The rows after a transaction's updates become visible. */
  function Recorded(rows: seq<Row>, t: Tx): seq<Row> {
    seq(|rows|, r requires 0 <= r < |rows| => RecordedRow(rows[r], r, t))
  }

  function RecordedRow(row: Row, r: nat, t: Tx): Row {
    if exists k :: 0 <= k < |t.batch| && k < |t.done| && t.batch[k] == r then
      Row(row.published || (exists k :: 0 <= k < |t.batch| && k < |t.done| && t.batch[k] == r && t.done[k]),
          row.attempts + 1)
    else row
  }

  predicate Enabled(s: System, e: Event) {
    match e
    case Publishes => true
    case Begins(tx, _) => tx !in s.txs && tx !in s.ended
    case Sends(tx, _) => tx in s.txs && |s.txs[tx].done| < |s.txs[tx].batch|
    case Commits(tx) => tx in s.txs && |s.txs[tx].done| == |s.txs[tx].batch|
    case Aborts(tx) => tx in s.txs
  }

  function Next(s: System, e: Event): System
    requires Enabled(s, e)
  {
    match e
    case Publishes => s.(rows := s.rows + [Row(false, 0)])
    case Begins(tx, limit) => s.(txs := s.txs[tx := Tx(Claimed(s, limit), [])])
    case Sends(tx, ok) =>
      var t := s.txs[tx];
      s.(txs := s.txs[tx := t.(done := t.done + [ok])], sends := s.sends + [Send(t.batch[|t.done|], tx, ok)])
    case Commits(tx) =>
      System(Recorded(s.rows, s.txs[tx]), s.txs - {tx}, s.ended[tx := true], s.sends)
    case Aborts(tx) =>
      s.(txs := s.txs - {tx}, ended := s.ended[tx := false])
  }

  // ---------------------------------------------------------------- invariant

  /** A live transaction holds distinct, unpublished rows. */
  ghost predicate LiveOk(s: System, tx: nat)
    requires tx in s.txs
  {
    var t := s.txs[tx];
    && tx !in s.ended
    && |t.done| <= |t.batch|
    && Distinct(t.batch)
    && forall k :: 0 <= k < |t.batch| ==> t.batch[k] < |s.rows| && !s.rows[t.batch[k]].published
  }

  ghost predicate Exclusive(s: System) {
    forall a, b :: a in s.txs && b in s.txs && a != b ==> Apart(s.txs[a].batch, s.txs[b].batch)
  }

  ghost predicate Apart(a: seq<nat>, b: seq<nat>) {
    forall i, j :: 0 <= i < |a| && 0 <= j < |b| ==> a[i] != b[j]
  }

  predicate DoneIn(t: Tx, d: Send) {
    exists k :: 0 <= k < |t.batch| && k < |t.done| && t.batch[k] == d.row && t.done[k] == d.ok
  }

  /** Every send is accounted for: by its live transaction, or, when it succeeded and committed, by the row. */
  ghost predicate SendOk(s: System, n: nat)
    requires n < |s.sends|
  {
    var d := s.sends[n];
    && d.row < |s.rows|
    && (d.tx in s.txs || d.tx in s.ended)
    && (d.tx in s.txs ==> DoneIn(s.txs[d.tx], d))
    && (d.tx in s.ended && s.ended[d.tx] && d.ok ==> s.rows[d.row].published)
  }

  ghost predicate DoneSent(s: System, tx: nat)
    requires tx in s.txs
  {
    var t := s.txs[tx];
    forall k :: 0 <= k < |t.done| && k < |t.batch| ==> Send(t.batch[k], tx, t.done[k]) in s.sends
  }

  /** The row was sent successfully by a transaction that committed. */
  ghost predicate Delivered(s: System, row: nat) {
    exists n :: 0 <= n < |s.sends| && s.sends[n].row == row && s.sends[n].ok
             && s.sends[n].tx in s.ended && s.ended[s.sends[n].tx]
  }

  /** An attempt that did not count: the send failed, or its transaction was rolled back. */
  predicate Void(s: System, d: Send) {
    !d.ok || (d.tx in s.ended && !s.ended[d.tx])
  }

  ghost predicate Inv(s: System) {
    && (forall tx :: tx in s.txs ==> LiveOk(s, tx) && DoneSent(s, tx))
    && Exclusive(s)
    && (forall n :: 0 <= n < |s.sends| ==> SendOk(s, n))
    && (forall r :: 0 <= r < |s.rows| && s.rows[r].published ==> Delivered(s, r))
    && (forall i, j :: 0 <= i < j < |s.sends| && s.sends[i].row == s.sends[j].row ==> Void(s, s.sends[i]))
  }

  lemma {:induction false} ClaimableRows(rows: seq<Row>, txs: map<nat, Tx>, n: nat)
    requires n <= |rows|
    ensures var c := Claimable(rows, txs, n);
            && (forall k :: 0 <= k < |c| ==> c[k] < n && !rows[c[k]].published && !Locked(txs, c[k]))
            && (forall i, j :: 0 <= i < j < |c| ==> c[i] < c[j])
            && (forall r :: 0 <= r < n && !rows[r].published && !Locked(txs, r) ==> r in c)
  {
    if n > 0 {
      ClaimableRows(rows, txs, n - 1);
    }
  }

  lemma PublishInv(s: System)
    requires Inv(s)
    ensures Inv(Next(s, Publishes))
  {
    var t := Next(s, Publishes);
    assert forall tx :: tx in s.txs ==> LiveOk(s, tx) && DoneSent(s, tx);
    forall r | 0 <= r < |t.rows| && t.rows[r].published
      ensures Delivered(t, r)
    {
      DeliveredStays(s, t, r);
    }
    forall n | 0 <= n < |t.sends|
      ensures SendOk(t, n)
    {
      assert SendOk(s, n);
    }
    assert forall tx :: tx in t.txs ==> LiveOk(t, tx) && DoneSent(t, tx);
    assert Exclusive(t);
  }

  /** A claim takes the oldest rows that are free, up to its limit, and nothing else. */
  lemma ClaimedRows(s: System, limit: nat)
    ensures var c := Claimed(s, limit);
            && |c| <= limit
            && Distinct(c)
            && (forall k :: 0 <= k < |c| ==> c[k] < |s.rows| && !s.rows[c[k]].published && !Locked(s.txs, c[k]))
            && (forall r, k :: 0 <= r < |s.rows| && !s.rows[r].published && !Locked(s.txs, r) && r !in c ==>
                  |c| == limit && (0 <= k < |c| ==> c[k] < r))
  {
    ClaimableRows(s.rows, s.txs, |s.rows|);
    var all := Claimable(s.rows, s.txs, |s.rows|);
    forall r, k | 0 <= r < |s.rows| && !s.rows[r].published && !Locked(s.txs, r) && r !in Claimed(s, limit)
      ensures |Claimed(s, limit)| == limit && (0 <= k < |Claimed(s, limit)| ==> Claimed(s, limit)[k] < r)
    {
      var j :| 0 <= j < |all| && all[j] == r;
    }
  }

  lemma BeginExclusive(s: System, tx: nat, limit: nat)
    requires Exclusive(s) && tx !in s.txs
    ensures Exclusive(s.(txs := s.txs[tx := Tx(Claimed(s, limit), [])]))
  {
    var t := s.(txs := s.txs[tx := Tx(Claimed(s, limit), [])]);
    ClaimedRows(s, limit);
    forall other | other in s.txs
      ensures Apart(s.txs[other].batch, Claimed(s, limit)) && Apart(Claimed(s, limit), s.txs[other].batch)
    {
      assert forall i :: 0 <= i < |s.txs[other].batch| ==> Locked(s.txs, s.txs[other].batch[i]);
    }
    forall a, b | a in t.txs && b in t.txs && a != b
      ensures Apart(t.txs[a].batch, t.txs[b].batch)
    {
      assert a != tx && b != tx ==> Apart(s.txs[a].batch, s.txs[b].batch);
    }
  }

  lemma BeginLive(s: System, tx: nat, limit: nat, other: nat)
    requires Inv(s) && Enabled(s, Begins(tx, limit)) && (other in s.txs || other == tx)
    ensures LiveOk(Next(s, Begins(tx, limit)), other) && DoneSent(Next(s, Begins(tx, limit)), other)
  {
    if other == tx {
      ClaimedRows(s, limit);
    } else {
      assert LiveOk(s, other) && DoneSent(s, other);
    }
  }

  lemma BeginInv(s: System, tx: nat, limit: nat)
    requires Inv(s) && Enabled(s, Begins(tx, limit))
    ensures Inv(Next(s, Begins(tx, limit)))
  {
    var t := Next(s, Begins(tx, limit));
    forall other | other in t.txs
      ensures LiveOk(t, other) && DoneSent(t, other)
    {
      BeginLive(s, tx, limit, other);
    }
    BeginExclusive(s, tx, limit);
    forall n | 0 <= n < |t.sends|
      ensures SendOk(t, n)
    {
      assert SendOk(s, n);
    }
    forall r | 0 <= r < |t.rows| && t.rows[r].published
      ensures Delivered(t, r)
    {
      DeliveredStays(s, t, r);
    }
  }

  /** A row about to be sent was only ever sent in vain. */
  lemma EarlierSendsVoid(s: System, tx: nat, i: nat)
    requires Inv(s) && tx in s.txs && |s.txs[tx].done| < |s.txs[tx].batch|
    requires i < |s.sends| && s.sends[i].row == s.txs[tx].batch[|s.txs[tx].done|]
    ensures Void(s, s.sends[i])
  {
    var d := s.sends[i];
    assert LiveOk(s, tx) && SendOk(s, i);
    assert d.tx in s.txs && d.tx != tx ==> Apart(s.txs[d.tx].batch, s.txs[tx].batch);
  }

  lemma SendInv(s: System, tx: nat, ok: bool)
    requires Inv(s) && Enabled(s, Sends(tx, ok))
    ensures Inv(Next(s, Sends(tx, ok)))
  {
    var t := Next(s, Sends(tx, ok));
    var sent := Send(s.txs[tx].batch[|s.txs[tx].done|], tx, ok);
    assert LiveOk(s, tx) && DoneSent(s, tx);
    forall other | other in t.txs
      ensures LiveOk(t, other) && DoneSent(t, other)
    {
      assert LiveOk(s, other) && DoneSent(s, other);
      assert t.sends[|s.sends|] == sent;
    }
    assert Exclusive(t) by {
      assert forall a, b :: a in s.txs && b in s.txs && a != b ==> Apart(s.txs[a].batch, s.txs[b].batch);
    }
    forall n | 0 <= n < |t.sends|
      ensures SendOk(t, n)
    {
      if n < |s.sends| {
        assert SendOk(s, n);
        SentStaysDone(s.txs[tx], ok, s.sends[n]);
      } else {
        var k := |s.txs[tx].done|;
        assert t.txs[tx].batch[k] == sent.row && t.txs[tx].done[k] == ok;
      }
    }
    forall r | 0 <= r < |t.rows| && t.rows[r].published
      ensures Delivered(t, r)
    {
      DeliveredStays(s, t, r);
    }
    forall i, j | 0 <= i < j < |t.sends| && t.sends[i].row == t.sends[j].row
      ensures Void(t, t.sends[i])
    {
      if j == |s.sends| {
        EarlierSendsVoid(s, tx, i);
      } else {
        assert Void(s, s.sends[i]);
      }
    }
  }

  lemma SentStaysDone(t: Tx, ok: bool, d: Send)
    ensures DoneIn(t, d) ==> DoneIn(t.(done := t.done + [ok]), d)
  {
    if DoneIn(t, d) {
      var k :| 0 <= k < |t.batch| && k < |t.done| && t.batch[k] == d.row && t.done[k] == d.ok;
      assert (t.done + [ok])[k] == d.ok;
    }
  }

  lemma DeliveredStays(s: System, t: System, r: nat)
    requires Delivered(s, r) && s.sends <= t.sends
    requires forall tx :: tx in s.ended ==> tx in t.ended && t.ended[tx] == s.ended[tx]
    ensures Delivered(t, r)
  {
    var n :| 0 <= n < |s.sends| && s.sends[n].row == r && s.sends[n].ok
          && s.sends[n].tx in s.ended && s.ended[s.sends[n].tx];
    assert t.sends[n] == s.sends[n];
  }

  /** Committing publishes exactly the rows sent successfully. */
  lemma RecordedMeaning(rows: seq<Row>, t: Tx, r: nat)
    requires r < |rows|
    ensures Recorded(rows, t)[r].published <==> rows[r].published || DoneIn(t, Send(r, 0, true))
  {
  }

  lemma EndInv(s: System, tx: nat, rows: seq<Row>, committed: bool)
    requires Inv(s) && tx in s.txs && |s.txs[tx].done| <= |s.txs[tx].batch|
    requires |rows| == |s.rows|
    requires forall r :: 0 <= r < |rows| ==>
      (rows[r].published <==> s.rows[r].published || (committed && DoneIn(s.txs[tx], Send(r, 0, true))))
    ensures Inv(System(rows, s.txs - {tx}, s.ended[tx := committed], s.sends))
  {
    var t := System(rows, s.txs - {tx}, s.ended[tx := committed], s.sends);
    assert LiveOk(s, tx) && DoneSent(s, tx);
    forall other | other in t.txs
      ensures LiveOk(t, other) && DoneSent(t, other)
    {
      assert LiveOk(s, other) && DoneSent(s, other) && Apart(s.txs[other].batch, s.txs[tx].batch);
    }
    assert Exclusive(t) by {
      assert forall a, b :: a in s.txs && b in s.txs && a != b ==> Apart(s.txs[a].batch, s.txs[b].batch);
    }
    forall n | 0 <= n < |t.sends|
      ensures SendOk(t, n)
    {
      EndKeepsSend(s, tx, rows, committed, n);
    }
    forall r | 0 <= r < |t.rows| && t.rows[r].published
      ensures Delivered(t, r)
    {
      EndDelivers(s, tx, rows, committed, r);
    }
    forall i, j | 0 <= i < j < |t.sends| && t.sends[i].row == t.sends[j].row
      ensures Void(t, t.sends[i])
    {
      assert Void(s, s.sends[i]) && SendOk(s, i);
    }
  }

  lemma EndKeepsSend(s: System, tx: nat, rows: seq<Row>, committed: bool, n: nat)
    requires Inv(s) && tx in s.txs && n < |s.sends| && |rows| == |s.rows|
    requires forall r :: 0 <= r < |rows| ==>
      (rows[r].published <==> s.rows[r].published || (committed && DoneIn(s.txs[tx], Send(r, 0, true))))
    ensures SendOk(System(rows, s.txs - {tx}, s.ended[tx := committed], s.sends), n)
  {
    var d := s.sends[n];
    assert SendOk(s, n) && LiveOk(s, tx);
    if d.tx == tx && d.ok {
      var k :| 0 <= k < |s.txs[tx].batch| && k < |s.txs[tx].done| && s.txs[tx].batch[k] == d.row
            && s.txs[tx].done[k] == d.ok;
      assert DoneIn(s.txs[tx], Send(d.row, 0, true));
    }
  }

  lemma EndDelivers(s: System, tx: nat, rows: seq<Row>, committed: bool, r: nat)
    requires Inv(s) && tx in s.txs && r < |rows| == |s.rows| && rows[r].published
    requires rows[r].published <==> s.rows[r].published || (committed && DoneIn(s.txs[tx], Send(r, 0, true)))
    ensures Delivered(System(rows, s.txs - {tx}, s.ended[tx := committed], s.sends), r)
  {
    var t := System(rows, s.txs - {tx}, s.ended[tx := committed], s.sends);
    assert LiveOk(s, tx) && DoneSent(s, tx);
    if s.rows[r].published {
      DeliveredStays(s, t, r);
    } else {
      var k :| 0 <= k < |s.txs[tx].batch| && k < |s.txs[tx].done| && s.txs[tx].batch[k] == r && s.txs[tx].done[k];
      assert Send(r, tx, true) in s.sends;
    }
  }

  lemma StepInv(s: System, e: Event)
    requires Inv(s) && Enabled(s, e)
    ensures Inv(Next(s, e))
  {
    match e
    case Publishes =>
      PublishInv(s);
    case Begins(tx, limit) =>
      BeginInv(s, tx, limit);
    case Sends(tx, ok) =>
      SendInv(s, tx, ok);
    case Commits(tx) =>
      forall r | 0 <= r < |s.rows|
        ensures Recorded(s.rows, s.txs[tx])[r].published <==>
          s.rows[r].published || DoneIn(s.txs[tx], Send(r, 0, true))
      {
        RecordedMeaning(s.rows, s.txs[tx], r);
      }
      EndInv(s, tx, Recorded(s.rows, s.txs[tx]), true);
    case Aborts(tx) =>
      assert LiveOk(s, tx);
      EndInv(s, tx, s.rows, false);
  }

  ghost predicate IsRun(run: seq<System>, events: seq<Event>) {
    && |run| == |events| + 1
    && run[0] == System([], map[], map[], [])
    && forall i :: 0 <= i < |events| ==> Enabled(run[i], events[i]) && run[i + 1] == Next(run[i], events[i])
  }

  lemma {:induction false} RunInv(run: seq<System>, events: seq<Event>, i: nat)
    requires IsRun(run, events) && i < |run|
    ensures Inv(run[i])
  {
    if i > 0 {
      RunInv(run, events, i - 1);
      StepInv(run[i - 1], events[i - 1]);
    }
  }

  // ---------------------------------------------------------------- what every interleaving guarantees

  function CountPublishes(events: seq<Event>): nat {
    if events == [] then 0
    else CountPublishes(events[..|events| - 1]) + if events[|events| - 1] == Publishes then 1 else 0
  }

  /** Every event published has its row, and no row appears otherwise or disappears. */
  lemma {:induction false} OneRowPerPublish(run: seq<System>, events: seq<Event>, i: nat)
    requires IsRun(run, events) && i < |run|
    ensures |run[i].rows| == CountPublishes(events[..i])
  {
    if i > 0 {
      OneRowPerPublish(run, events, i - 1);
      assert events[..i][..i - 1] == events[..i - 1];
    }
  }

  /** Two dispatchers never hold the same row. */
  lemma LocksAreExclusive(run: seq<System>, events: seq<Event>, i: nat, a: nat, b: nat, row: nat)
    requires IsRun(run, events) && i < |run| && a in run[i].txs && b in run[i].txs && a != b
    ensures !(row in run[i].txs[a].batch && row in run[i].txs[b].batch)
  {
    RunInv(run, events, i);
    assert Apart(run[i].txs[a].batch, run[i].txs[b].batch);
  }

  /** A row is published exactly when some transaction that committed sent it successfully. */
  lemma PublishedMeansDelivered(run: seq<System>, events: seq<Event>, i: nat, row: nat)
    requires IsRun(run, events) && i < |run| && row < |run[i].rows|
    ensures run[i].rows[row].published <==> Delivered(run[i], row)
  {
    RunInv(run, events, i);
    if Delivered(run[i], row) {
      var n :| 0 <= n < |run[i].sends| && run[i].sends[n].row == row && run[i].sends[n].ok
            && run[i].sends[n].tx in run[i].ended && run[i].ended[run[i].sends[n].tx];
      assert SendOk(run[i], n);
    }
  }

  /** A row is sent again only when the earlier send failed or its transaction was rolled back. */
  lemma SentAgainOnlyInVain(run: seq<System>, events: seq<Event>, i: nat, m: nat, n: nat)
    requires IsRun(run, events) && i < |run| && m < n < |run[i].sends|
    requires run[i].sends[m].row == run[i].sends[n].row
    ensures Void(run[i], run[i].sends[m])
  {
    RunInv(run, events, i);
  }

  lemma PublishedStep(s: System, e: Event, row: nat)
    requires Inv(s) && Enabled(s, e) && row < |s.rows| && s.rows[row].published
    ensures row < |Next(s, e).rows| && Next(s, e).rows[row].published
    ensures Next(s, e).sends == s.sends || exists d :: Next(s, e).sends == s.sends + [d] && d.row != row
  {
    if e.Sends? {
      assert LiveOk(s, e.tx);
      var t := s.txs[e.tx];
      assert Next(s, e).sends == s.sends + [Send(t.batch[|t.done|], e.tx, e.ok)];
    }
  }

  /** Once published, a row stays published and is never sent again, whatever happens later. */
  lemma {:induction false} PublishedIsFinal(run: seq<System>, events: seq<Event>, i: nat, j: nat, row: nat)
    requires IsRun(run, events) && i <= j < |run| && row < |run[i].rows| && run[i].rows[row].published
    ensures row < |run[j].rows| && run[j].rows[row].published
    ensures run[i].sends <= run[j].sends
    ensures forall n :: |run[i].sends| <= n < |run[j].sends| ==> run[j].sends[n].row != row
    decreases j
  {
    if i < j {
      PublishedIsFinal(run, events, i, j - 1, row);
      RunInv(run, events, j - 1);
      PublishedStep(run[j - 1], events[j - 1], row);
      assert run[j] == Next(run[j - 1], events[j - 1]);
    }
  }

  // ---------------------------------------------------------------- one flush, seen from inside

  function SendsOf(batch: seq<nat>, tx: nat, outcome: nat -> bool): seq<Send> {
    seq(|batch|, k requires 0 <= k < |batch| => Send(batch[k], tx, outcome(batch[k])))
  }

  function Outcomes(batch: seq<nat>, outcome: nat -> bool): seq<bool> {
    seq(|batch|, k requires 0 <= k < |batch| => outcome(batch[k]))
  }

  /** Recording one more result touches that result's row only. */
  lemma RecordedStep(rows: seq<Row>, batch: seq<nat>, done: seq<bool>, ok: bool)
    requires Distinct(batch) && |done| < |batch| && batch[|done|] < |rows|
    ensures var before := Recorded(rows, Tx(batch, done));
            var r := batch[|done|];
            var row := Row(before[r].published || ok, before[r].attempts + 1);
            Recorded(rows, Tx(batch, done + [ok])) == before[r := row]
  {
    var before, after := Tx(batch, done), Tx(batch, done + [ok]);
    forall r | 0 <= r < |rows|
      ensures r == batch[|done|] ==> RecordedRow(rows[r], r, before) == rows[r]
      ensures r == batch[|done|] ==>
        RecordedRow(rows[r], r, after) == Row(rows[r].published || ok, rows[r].attempts + 1)
      ensures r != batch[|done|] ==> RecordedRow(rows[r], r, before) == RecordedRow(rows[r], r, after)
    {
      if r == batch[|done|] {
        assert after.batch[|done|] == r && after.done[|done|] == ok;
      } else {
        assert forall k :: 0 <= k < |done| ==> after.done[k] == before.done[k];
      }
    }
  }

  lemma OneMoreSend(batch: seq<nat>, i: nat, tx: nat, outcome: nat -> bool)
    requires i < |batch|
    ensures SendsOf(batch[..i + 1], tx, outcome)
         == SendsOf(batch[..i], tx, outcome) + [Send(batch[i], tx, outcome(batch[i]))]
  {
  }

  lemma FlushStep(rows: seq<Row>, batch: seq<nat>, i: nat, outcome: nat -> bool)
    requires Distinct(batch) && i < |batch| && batch[i] < |rows|
    ensures var before := Recorded(rows, Tx(batch, Outcomes(batch[..i], outcome)));
            var row := Row(before[batch[i]].published || outcome(batch[i]), before[batch[i]].attempts + 1);
            Recorded(rows, Tx(batch, Outcomes(batch[..i + 1], outcome))) == before[batch[i] := row]
  {
    RecordedStep(rows, batch, Outcomes(batch[..i], outcome), outcome(batch[i]));
    assert Outcomes(batch[..i + 1], outcome) == Outcomes(batch[..i], outcome) + [outcome(batch[i])];
  }

  class OutboxDispatcher {
    var rows: seq<Row>
    var sends: seq<Send>

    constructor (rows: seq<Row>)
      ensures this.rows == rows && sends == []
    {
      this.rows, sends := rows, [];
    }

    /**
     `others` are the transactions of other dispatchers, `outcome` says whether sending a row succeeds, and `breaks` at
     which row of the batch recording the result fails, which rolls everything back although the row was sent.
     */
    method Flush(tx: nat, limit: nat, others: map<nat, Tx>, outcome: nat -> bool, breaks: Option<nat>)
      returns (count: Option<nat>)
      modifies this
      ensures var batch := Claimed(System(old(rows), others, map[], []), limit);
              && (breaks.Some? && breaks.value < |batch| ==>
                    && count == None && rows == old(rows)
                    && sends == old(sends) + SendsOf(batch[..breaks.value + 1], tx, outcome))
              && (!(breaks.Some? && breaks.value < |batch|) ==>
                    && count == Some(|batch|)
                    && rows == Recorded(old(rows), Tx(batch, Outcomes(batch, outcome)))
                    && sends == old(sends) + SendsOf(batch, tx, outcome))
    {
      var batch := Claimed(System(rows, others, map[], []), limit);
      ClaimedRows(System(rows, others, map[], []), limit);
      var work := SendBatch(tx, batch, outcome, breaks);
      if work.Some? {
        rows := work.value;
      }
      count := if work.Some? then Some(|batch|) else None;
    }

    /** Sends a batch in order; the rows as the transaction sees them, or none when recording a result failed. */
    method SendBatch(tx: nat, batch: seq<nat>, outcome: nat -> bool, breaks: Option<nat>)
      returns (work: Option<seq<Row>>)
      requires Distinct(batch) && forall k :: 0 <= k < |batch| ==> batch[k] < |rows|
      modifies this`sends
      ensures work.None? <==> breaks.Some? && breaks.value < |batch|
      ensures sends
           == old(sends) + SendsOf(if work.None? then batch[..breaks.value + 1] else batch, tx, outcome)
      ensures work.Some? ==> work.value == Recorded(rows, Tx(batch, Outcomes(batch, outcome)))
    {
      var current := rows;
      assert Recorded(rows, Tx(batch, [])) == rows;
      for i := 0 to |batch|
        invariant current == Recorded(rows, Tx(batch, Outcomes(batch[..i], outcome)))
        invariant sends == old(sends) + SendsOf(batch[..i], tx, outcome)
        invariant breaks.Some? ==> breaks.value >= i
      {
        var r, ok := batch[i], outcome(batch[i]);
        sends := sends + [Send(r, tx, ok)];
        OneMoreSend(batch, i, tx, outcome);
        if breaks == Some(i) {
          return None;
        }
        FlushStep(rows, batch, i, outcome);
        current := current[r := Row(current[r].published || ok, current[r].attempts + 1)];
      }
      assert batch[..|batch|] == batch;
      work := Some(current);
    }
  }
}
