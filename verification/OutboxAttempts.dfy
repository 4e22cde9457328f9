/**
 The attempt counter of the outbox (`attempt_count`, src/infrastructure/postgres/outbox.ts), over every interleaving of
 dispatchers: it counts exactly the sends of transactions that committed.
 */
module OutboxAttempts {
  import opened Outbox

  /** How often a transaction sent a row. */
  function Sent(sends: seq<Send>, tx: nat, r: nat): nat {
    if sends == [] then 0
    else
      var last := sends[|sends| - 1];
      Sent(sends[..|sends| - 1], tx, r) + if last.tx == tx && last.row == r then 1 else 0
  }

  /** How often committed transactions sent a row. */
  function Attempted(sends: seq<Send>, ended: map<nat, bool>, r: nat): nat {
    if sends == [] then 0
    else
      var last := sends[|sends| - 1];
      Attempted(sends[..|sends| - 1], ended, r)
      + if last.row == r && last.tx in ended && ended[last.tx] then 1 else 0
  }

  /** The transaction is past the row. */
  predicate Past(t: Tx, r: nat) {
    exists k :: 0 <= k < |t.batch| && k < |t.done| && t.batch[k] == r
  }

  ghost predicate SendsOnce(s: System, r: nat) {
    && (forall tx :: tx in s.txs ==> Sent(s.sends, tx, r) == if Past(s.txs[tx], r) then 1 else 0)
    && (forall tx :: tx !in s.txs && tx !in s.ended ==> Sent(s.sends, tx, r) == 0)
  }

  predicate Counts(s: System, r: nat) {
    Attempted(s.sends, s.ended, r) == if r < |s.rows| then s.rows[r].attempts else 0
  }

  lemma SentAppend(sends: seq<Send>, d: Send, tx: nat, r: nat)
    ensures Sent(sends + [d], tx, r) == Sent(sends, tx, r) + if d.tx == tx && d.row == r then 1 else 0
  {
    assert (sends + [d])[..|sends|] == sends;
  }

  lemma AttemptedAppend(sends: seq<Send>, d: Send, ended: map<nat, bool>, r: nat)
    requires d.tx !in ended
    ensures Attempted(sends + [d], ended, r) == Attempted(sends, ended, r)
  {
    assert (sends + [d])[..|sends|] == sends;
  }

  lemma {:induction false} AttemptedOnEnd(sends: seq<Send>, ended: map<nat, bool>, tx: nat, committed: bool, r: nat)
    requires tx !in ended
    ensures Attempted(sends, ended[tx := committed], r)
         == Attempted(sends, ended, r) + if committed then Sent(sends, tx, r) else 0
  {
    if sends != [] {
      AttemptedOnEnd(sends[..|sends| - 1], ended, tx, committed, r);
    }
  }

  lemma PastAfterSend(t: Tx, ok: bool, r: nat)
    requires |t.done| < |t.batch|
    ensures Past(t.(done := t.done + [ok]), r) <==> Past(t, r) || t.batch[|t.done|] == r
  {
    if t.batch[|t.done|] == r {
      assert t.(done := t.done + [ok]).batch[|t.done|] == r;
    }
  }

  lemma SendStep(s: System, tx: nat, ok: bool, r: nat)
    requires Inv(s) && Enabled(s, Sends(tx, ok)) && SendsOnce(s, r) && Counts(s, r)
    ensures SendsOnce(Next(s, Sends(tx, ok)), r) && Counts(Next(s, Sends(tx, ok)), r)
  {
    var t, n := s.txs[tx], Next(s, Sends(tx, ok));
    var d := Send(t.batch[|t.done|], tx, ok);
    assert LiveOk(s, tx);
    AttemptedAppend(s.sends, d, s.ended, r);
    PastAfterSend(t, ok, r);
    assert t.batch[|t.done|] == r ==> !Past(t, r);
    forall other
      ensures Sent(n.sends, other, r) == Sent(s.sends, other, r) + if other == tx && d.row == r then 1 else 0
    {
      SentAppend(s.sends, d, other, r);
    }
  }

  lemma EndStep(s: System, tx: nat, committed: bool, r: nat)
    requires Inv(s) && tx in s.txs && (committed ==> |s.txs[tx].done| == |s.txs[tx].batch|)
    requires SendsOnce(s, r) && Counts(s, r)
    ensures var rows := if committed then Recorded(s.rows, s.txs[tx]) else s.rows;
            var n := System(rows, s.txs - {tx}, s.ended[tx := committed], s.sends);
            SendsOnce(n, r) && Counts(n, r)
  {
    assert LiveOk(s, tx);
    AttemptedOnEnd(s.sends, s.ended, tx, committed, r);
    assert Past(s.txs[tx], r) ==> r < |s.rows|;
  }

  lemma Step(s: System, e: Event, r: nat)
    requires Inv(s) && Enabled(s, e) && SendsOnce(s, r) && Counts(s, r)
    ensures SendsOnce(Next(s, e), r) && Counts(Next(s, e), r)
  {
    match e
    case Publishes =>
    case Begins(tx, limit) =>
      assert !Past(Tx(Claimed(s, limit), []), r);
    case Sends(tx, ok) =>
      SendStep(s, tx, ok, r);
    case Commits(tx) =>
      EndStep(s, tx, true, r);
    case Aborts(tx) =>
      EndStep(s, tx, false, r);
  }

  lemma {:induction false} RunCounts(run: seq<System>, events: seq<Event>, i: nat, r: nat)
    requires IsRun(run, events) && i < |run|
    ensures SendsOnce(run[i], r) && Counts(run[i], r)
  {
    if i > 0 {
      RunCounts(run, events, i - 1, r);
      RunInv(run, events, i - 1);
      Step(run[i - 1], events[i - 1], r);
    }
  }

  /** In every reachable state a row's counter is the number of times committed transactions sent it. */
  lemma AttemptsAreCommittedSends(run: seq<System>, events: seq<Event>, i: nat, r: nat)
    requires IsRun(run, events) && i < |run| && r < |run[i].rows|
    ensures run[i].rows[r].attempts == Attempted(run[i].sends, run[i].ended, r)
  {
    RunCounts(run, events, i, r);
  }
}
