/**
 Staged rollout of a policy set with automatic rollback (src/application/safe-apply.ts over
 src/infrastructure/pg-policy-enforcer.ts and src/infrastructure/pg-rollout-store.ts).

 What the outside world does during a call is a parameter: what each poll sees and how long it takes, and for every
 port call whether it completes or throws part-way.
 */
module SafeApply {
  import opened RolloutStore
  import opened Wrappers
  import Agent
  import CanonicalJson
  import CommandQueue
  import Policy
  import E = PolicyEnforcer

  // ---------------------------------------------------------------- one poll

  datatype Probe = Healthy | Unhealthy | Hangs | Rejects

  /** The probe's answer, the acknowledgement log as `refresh` reads it, how `refresh` ends, and the time spent. */
  datatype Poll = Poll(probe: Probe, acks: seq<CommandQueue.Ack>, refresh: Fault, busy: nat, oversleep: nat)

  type Polls = nat -> Poll

  datatype Config = Config(threshold: real, interval: nat)

  datatype Reason = Unreachable | TooManyFailed(bad: nat, targets: nat)

  /** How waiting ends: with an exception, or with the reason to roll back (none: commit). */
  datatype Verdict = Threw | Verdict(reason: Option<Reason>)

  function Bad(rows: Rows, c: string, includeTimedOut: bool): nat {
    |WithStatus(rows, c, FAILED)| + if includeTimedOut then |WithStatus(rows, c, TIMED_OUT)| else 0
  }

  function FailureReason(rows: Rows, c: string, targets: nat, threshold: real, includeTimedOut: bool): Option<Reason> {
    if targets == 0 then None
    else if Bad(rows, c, includeTimedOut) as real / targets as real > threshold then
      Some(TooManyFailed(Bad(rows, c, includeTimedOut), targets))
    else None
  }

  /** The rows after the first `n` polls, each refreshing completely. */
  function RowsAfter(rows: Rows, c: string, polls: Polls, n: nat): Rows {
    if n == 0 then rows else Refreshed(RowsAfter(rows, c, polls, n - 1), c, polls(n - 1).acks)
  }

  /** What one poll settles; none when waiting goes on. */
  function PollVerdict(rows: Rows, c: string, targets: nat, config: Config, poll: Poll): Option<Verdict> {
    if poll.probe == Rejects then Some(Threw)
    else if poll.probe != Healthy then Some(Verdict(Some(Unreachable)))
    else if targets == 0 then Some(Verdict(None))
    else if poll.refresh.Throws? then Some(Threw)
    else
      var now := Refreshed(rows, c, poll.acks);
      var reason := FailureReason(now, c, targets, config.threshold, false);
      if reason.Some? then Some(Verdict(reason))
      else if WithStatus(now, c, PENDING) == {} then Some(Verdict(None))
      else None
  }

  /** What poll `i` settles, the polls before it having refreshed completely. */
  function Settles(rows: Rows, c: string, targets: nat, config: Config, polls: Polls, i: nat): Option<Verdict> {
    PollVerdict(RowsAfter(rows, c, polls, i), c, targets, config, polls(i))
  }

  // ---------------------------------------------------------------- the clock

  function Max(a: int, b: int): int { if a < b then b else a }

  function Min(a: int, b: int): int { if a < b then a else b }

  /** A timer fires no earlier than it was asked to, and never in under a millisecond. */
  function Wake(now: int, deadline: int, interval: nat, poll: Poll): int {
    var then_ := now + poll.busy;
    then_ + Max(1, Min(interval, Max(0, deadline - then_))) + poll.oversleep
  }

  /** When poll `i` starts, waiting having gone on until then. */
  function Time(start: int, timeout: nat, interval: nat, polls: Polls, i: nat): int {
    if i == 0 then start
    else Wake(Time(start, timeout, interval, polls, i - 1), start + timeout, interval, polls(i - 1))
  }

  /** `n` polls fit in the window when waiting is never cut short. */
  ghost predicate FillsWindow(start: int, timeout: nat, interval: nat, polls: Polls, n: nat) {
    && (forall i :: 0 <= i < n ==> Time(start, timeout, interval, polls, i) < start + timeout)
    && Time(start, timeout, interval, polls, n) >= start + timeout
  }

  // ---------------------------------------------------------------- waiting for the outcome

  datatype Window = Window(start: int, timeout: nat, polls: Polls, finalize: Fault, summary: Fault)

  /** What the closing statements settle when no poll did. */
  function Closes(rows: Rows, c: string, targets: nat, config: Config, w: Window): Verdict {
    if w.finalize.Throws? || w.summary.Throws? then Threw
    else Verdict(FailureReason(Finalized(rows, c), c, targets, config.threshold, true))
  }

  /** Poll `i` starts before the deadline and settles nothing. */
  predicate GoesOn(rows: Rows, c: string, targets: nat, config: Config, w: Window, i: nat) {
    && Time(w.start, w.timeout, config.interval, w.polls, i) < w.start + w.timeout
    && Settles(rows, c, targets, config, w.polls, i) == None
  }

  ghost predicate Undecided(rows: Rows, c: string, targets: nat, config: Config, w: Window, n: nat) {
    forall i :: 0 <= i < n ==> GoesOn(rows, c, targets, config, w, i)
  }

  /** Whether the last of `n` polls settled the outcome. */
  predicate CutShort(rows: Rows, c: string, targets: nat, config: Config, w: Window, n: nat) {
    n > 0 && Settles(rows, c, targets, config, w.polls, n - 1).Some?
  }

  /** The last of `n` polls is the first that settles anything, and settles this. */
  ghost predicate Decided(rows: Rows, c: string, targets: nat, config: Config, w: Window, n: nat, v: Verdict) {
    && n > 0
    && Undecided(rows, c, targets, config, w, n - 1)
    && Time(w.start, w.timeout, config.interval, w.polls, n - 1) < w.start + w.timeout
    && Settles(rows, c, targets, config, w.polls, n - 1) == Some(v)
  }

  /** The deadline passes after `n` polls that settled nothing. */
  ghost predicate Expired(rows: Rows, c: string, targets: nat, config: Config, w: Window, n: nat) {
    && Undecided(rows, c, targets, config, w, n)
    && Time(w.start, w.timeout, config.interval, w.polls, n) >= w.start + w.timeout
  }

  /** The first poll that settles anything decides; when none does before the deadline, the closing statements do. */
  ghost predicate Waited(rows: Rows, c: string, targets: nat, config: Config, w: Window, polled: nat, v: Verdict) {
    if CutShort(rows, c, targets, config, w, polled) then
      Decided(rows, c, targets, config, w, polled, v)
    else
      && Expired(rows, c, targets, config, w, polled)
      && v == Closes(RowsAfter(rows, c, w.polls, polled), c, targets, config, w)
  }

  /** The rows a decision was based on. */
  function RowsAtDecision(rows: Rows, c: string, targets: nat, config: Config, w: Window, polled: nat): Rows {
    var polledRows := RowsAfter(rows, c, w.polls, polled);
    if CutShort(rows, c, targets, config, w, polled) then polledRows
    else Finalized(polledRows, c)
  }

  /** Nothing outside this commit's rows changes, and no row appears or disappears. */
  ghost predicate OnlyCommit(old_: Rows, new_: Rows, c: string) {
    new_.Keys == old_.Keys && forall key :: key in old_ && key.commit != c ==> new_[key] == old_[key]
  }

  lemma WakeAdvances(now: int, deadline: int, interval: nat, poll: Poll)
    ensures Wake(now, deadline, interval, poll) > now
    ensures Wake(now, deadline, interval, poll) >= deadline
         || Wake(now, deadline, interval, poll) >= now + Max(1, interval)
  {
  }

  /** Nor is a wait longer than asked for: an interval, or what is left of the window if that is less. */
  lemma WakePunctual(now: int, deadline: int, interval: nat, poll: Poll)
    ensures var waited := Wake(now, deadline, interval, poll) - poll.oversleep - (now + poll.busy);
            && (waited == interval || waited == 1 || now + poll.busy + waited == deadline)
            && (waited > 1 ==> waited <= interval && now + poll.busy + waited <= deadline)
  {
  }

  /** A commit without targets has no rows to refresh. */
  lemma {:induction false} NothingToRefresh(rows: Rows, c: string, polls: Polls, n: nat)
    requires WithStatus(rows, c, PENDING) == {}
    ensures RowsAfter(rows, c, polls, n) == rows
  {
    if n > 0 {
      NothingToRefresh(rows, c, polls, n - 1);
      AdvanceAllLater(rows, c, Selected(polls(n - 1).acks, c));
      SettledRowsFrozen(rows, Refreshed(rows, c, polls(n - 1).acks), c);
    }
  }

  /** Every row of the commit is still PENDING, as `start` leaves them. */
  ghost predicate JustStarted(rows: Rows, c: string, targets: seq<string>) {
    && NodesOf(rows, c) == (set t | t in targets)
    && forall key :: key in rows && key.commit == c ==> rows[key] == PENDING
  }

  method PollOnce(store: PgRolloutStore, c: string, targets: nat, config: Config, poll: Poll)
    returns (v: Option<Verdict>)
    modifies store
    ensures v == PollVerdict(old(store.rows), c, targets, config, poll)
    ensures Later(old(store.rows), store.rows, c)
    ensures targets == 0 ==> store.rows == old(store.rows)
    ensures v == None || (v == Some(Verdict(None)) && targets != 0) ==>
      store.rows == Refreshed(old(store.rows), c, poll.acks)
  {
    if poll.probe == Rejects {
      return Some(Threw);
    }
    if poll.probe != Healthy {
      return Some(Verdict(Some(Unreachable)));
    }
    if targets == 0 {
      return Some(Verdict(None));
    }
    AdvanceAllLater(store.rows, c, Selected(poll.acks, c)[..Effective(poll.refresh, |Selected(poll.acks, c)|)]);
    var ok := store.Refresh(c, poll.acks, poll.refresh);
    if !ok {
      return Some(Threw);
    }
    var reason := FailureReason(store.rows, c, targets, config.threshold, false);
    if reason.Some? {
      return Some(Verdict(reason));
    }
    v := if WithStatus(store.rows, c, PENDING) == {} then Some(Verdict(None)) else None;
  }

  lemma UndecidedExtends(rows: Rows, c: string, targets: nat, config: Config, w: Window, n: nat)
    requires Undecided(rows, c, targets, config, w, n)
    requires Time(w.start, w.timeout, config.interval, w.polls, n) < w.start + w.timeout
    requires Settles(rows, c, targets, config, w.polls, n) == None
    ensures Undecided(rows, c, targets, config, w, n + 1)
  {
  }

  /** The polling loop: returns what the deciding poll settled, or none at the deadline. */
  method PollUntilDeadline(store: PgRolloutStore, c: string, targets: nat, config: Config, w: Window)
    returns (settled: Option<Verdict>, polled: nat)
    requires targets == 0 ==> WithStatus(store.rows, c, PENDING) == {}
    modifies store
    ensures OnlyCommit(old(store.rows), store.rows, c)
    ensures settled.Some? ==> Decided(old(store.rows), c, targets, config, w, polled, settled.value)
    ensures settled.None? ==> Expired(old(store.rows), c, targets, config, w, polled)
    ensures settled.None? || settled.value == Verdict(None) ==>
      store.rows == RowsAfter(old(store.rows), c, w.polls, polled)
  {
    ghost var rows := store.rows;
    var now, deadline := w.start, w.start + w.timeout;
    polled := 0;
    while now < deadline
      invariant now == Time(w.start, w.timeout, config.interval, w.polls, polled)
      invariant store.rows == RowsAfter(rows, c, w.polls, polled)
      invariant OnlyCommit(rows, store.rows, c)
      invariant Undecided(rows, c, targets, config, w, polled)
      decreases deadline - now
    {
      var poll := w.polls(polled);
      settled := PollOnce(store, c, targets, config, poll);
      assert settled == Settles(rows, c, targets, config, w.polls, polled);
      polled := polled + 1;
      if settled.Some? {
        if targets == 0 {
          assert store.rows == RowsAfter(rows, c, w.polls, polled) by {
            NothingToRefresh(rows, c, w.polls, polled - 1);
            NothingToRefresh(rows, c, w.polls, polled);
          }
        }
        return;
      }
      UndecidedExtends(rows, c, targets, config, w, polled - 1);
      WakeAdvances(now, deadline, config.interval, poll);
      now := Wake(now, deadline, config.interval, poll);
    }
    settled := None;
  }

  method WaitForOutcome(store: PgRolloutStore, c: string, targets: seq<string>, config: Config, w: Window)
    returns (v: Verdict, polled: nat)
    requires JustStarted(store.rows, c, targets)
    modifies store
    ensures Waited(old(store.rows), c, |targets|, config, w, polled, v)
    ensures Calm(w) ==> v.Verdict?
    ensures v == Verdict(None) ==> store.rows == RowsAtDecision(old(store.rows), c, |targets|, config, w, polled)
    ensures v == Verdict(None) ==> SafeToCommit(store.rows, c, targets, config.threshold, w.polls, polled)
    ensures v.Verdict? && v.reason.Some? ==>
      Justified(old(store.rows), c, targets, config, w, polled, v.reason.value)
    ensures OnlyCommit(old(store.rows), store.rows, c)
  {
    if targets == [] {
      NoTargetsNoRows(store.rows, c, targets);
    }
    var settled: Option<Verdict>;
    settled, polled := PollUntilDeadline(store, c, |targets|, config, w);
    if settled.Some? {
      v := settled.value;
      WaitedMeans(old(store.rows), c, targets, config, w, polled, v);
      return;
    }
    assert polled > 0 ==> GoesOn(old(store.rows), c, |targets|, config, w, polled - 1);
    var ok := store.FinalizeTimeouts(c, w.finalize);
    if !ok || w.summary.Throws? {
      return Threw, polled;
    }
    v := Verdict(FailureReason(store.rows, c, |targets|, config.threshold, true));
    WaitedMeans(old(store.rows), c, targets, config, w, polled, v);
  }

  lemma NoTargetsNoRows(rows: Rows, c: string, targets: seq<string>)
    requires JustStarted(rows, c, targets) && targets == []
    ensures WithStatus(rows, c, PENDING) == {}
  {
    assert forall key :: key in rows && key.commit == c ==> key.node in NodesOf(rows, c);
  }

  // ---------------------------------------------------------------- early exit loses nothing

  lemma {:induction false} RowsAfterLater(rows: Rows, c: string, polls: Polls, m: nat, n: nat)
    requires m <= n
    ensures Later(RowsAfter(rows, c, polls, m), RowsAfter(rows, c, polls, n), c)
    decreases n
  {
    if m < n {
      RowsAfterLater(rows, c, polls, m, n - 1);
      var before := RowsAfter(rows, c, polls, n - 1);
      AdvanceAllLater(before, c, Selected(polls(n - 1).acks, c));
      LaterTransitive(RowsAfter(rows, c, polls, m), before, RowsAfter(rows, c, polls, n), c);
    }
  }

  /** While waiting, a targeted row is PENDING, or holds the verdict of an acknowledgement some poll saw. */
  ghost predicate Explained(rows: Rows, c: string, polls: Polls, n: nat, key: Key)
    requires key in rows
  {
    || rows[key] == PENDING
    || exists i, a :: 0 <= i < n && a in polls(i).acks && Answers(a, c) && a.node == key.node && rows[key] == Judged(a)
  }

  lemma {:induction false} RowsExplained(rows: Rows, c: string, targets: seq<string>, polls: Polls, n: nat, key: Key)
    requires JustStarted(rows, c, targets) && key in rows && key.commit == c
    ensures key in RowsAfter(rows, c, polls, n)
    ensures Explained(RowsAfter(rows, c, polls, n), c, polls, n, key)
  {
    if n > 0 {
      RowsExplained(rows, c, targets, polls, n - 1, key);
      var before, acks := RowsAfter(rows, c, polls, n - 1), Selected(polls(n - 1).acks, c);
      AdvanceAllLater(before, c, acks);
      if AdvanceAll(before, c, acks)[key] != before[key] {
        AdvancedByAck(before, c, acks, key);
        SelectedAnswers(polls(n - 1).acks, c);
      }
    }
  }

  /** No row times out or is rolled back while waiting. */
  lemma NoneTimedOut(rows: Rows, c: string, targets: seq<string>, polls: Polls, n: nat)
    requires JustStarted(rows, c, targets)
    ensures WithStatus(RowsAfter(rows, c, polls, n), c, TIMED_OUT) == {}
    ensures WithStatus(RowsAfter(rows, c, polls, n), c, ROLLED_BACK) == {}
  {
    RowsAfterLater(rows, c, polls, 0, n);
    forall key | key in rows && key.commit == c
      ensures RowsAfter(rows, c, polls, n)[key] !in {TIMED_OUT, ROLLED_BACK}
    {
      RowsExplained(rows, c, targets, polls, n, key);
    }
  }

  lemma FinalizedSettled(rows: Rows, c: string)
    requires WithStatus(rows, c, PENDING) == {}
    ensures Finalized(rows, c) == rows
  {
    assert forall key :: key in rows && key.commit == c && rows[key] == PENDING ==>
      key.node in WithStatus(rows, c, PENDING);
  }

  lemma FinalizedKeepsFailures(rows: Rows, c: string)
    ensures WithStatus(Finalized(rows, c), c, FAILED) == WithStatus(rows, c, FAILED)
    ensures WithStatus(Finalized(rows, c), c, SUCCEEDED) == WithStatus(rows, c, SUCCEEDED)
    ensures WithStatus(Finalized(rows, c), c, ROLLED_BACK) == WithStatus(rows, c, ROLLED_BACK)
    ensures WithStatus(Finalized(rows, c), c, PENDING) == {}
    ensures NodesOf(Finalized(rows, c), c) == NodesOf(rows, c)
  {
    var after := Finalized(rows, c);
    assert after.Keys == rows.Keys;
  }

  lemma RatioMonotone(a: nat, b: nat, n: nat, threshold: real)
    requires a <= b && n > 0 && a as real / n as real > threshold
    ensures b as real / n as real > threshold
  {
  }

  ghost predicate Calm(w: Window) {
    && w.finalize == Completes && w.summary == Completes
    && forall i :: w.polls(i).probe == Healthy && w.polls(i).refresh == Completes
  }

  /** The decision taken once, at the deadline, by a loop that never stops early. */
  predicate CommitsAtDeadline(rows: Rows, c: string, targets: nat, config: Config, polls: Polls, n: nat) {
    FailureReason(Finalized(RowsAfter(rows, c, polls, n), c), c, targets, config.threshold, true) == None
  }

  /** A failure count already over the threshold stays over it. */
  lemma FailFastIsFinal(rows: Rows, c: string, targets: nat, config: Config, polls: Polls, m: nat, n: nat)
    requires m <= n
    requires FailureReason(RowsAfter(rows, c, polls, m), c, targets, config.threshold, false).Some?
    ensures !CommitsAtDeadline(rows, c, targets, config, polls, n)
  {
    var early, late := RowsAfter(rows, c, polls, m), RowsAfter(rows, c, polls, n);
    RowsAfterLater(rows, c, polls, m, n);
    FailuresGrow(early, late, c);
    FinalizedKeepsFailures(late, c);
    RatioMonotone(Bad(early, c, false), Bad(Finalized(late, c), c, true), targets, config.threshold);
  }

  /** Once every target has answered, nothing later changes the count. */
  lemma AllAnsweredIsFinal(rows: Rows, c: string, targets: seq<string>, config: Config, polls: Polls, m: nat, n: nat)
    requires JustStarted(rows, c, targets) && m <= n
    requires WithStatus(RowsAfter(rows, c, polls, m), c, PENDING) == {}
    requires FailureReason(RowsAfter(rows, c, polls, m), c, |targets|, config.threshold, false) == None
    ensures CommitsAtDeadline(rows, c, |targets|, config, polls, n)
  {
    RowsAfterLater(rows, c, polls, m, n);
    SettledRowsFrozen(RowsAfter(rows, c, polls, m), RowsAfter(rows, c, polls, n), c);
    FinalizedSettled(RowsAfter(rows, c, polls, n), c);
    NoneTimedOut(rows, c, targets, polls, n);
  }

  /**
   Failing fast and stopping once everyone has answered take exactly the decision that polling on to the deadline,
   timing out the silent nodes and deciding once would take.
   */
  lemma EarlyExitMatchesDeadline(rows: Rows, c: string, targets: seq<string>, config: Config, w: Window,
                                 polled: nat, v: Verdict, n: nat)
    requires JustStarted(rows, c, targets) && Waited(rows, c, |targets|, config, w, polled, v) && Calm(w)
    requires FillsWindow(w.start, w.timeout, config.interval, w.polls, n)
    ensures v.Verdict?
    ensures v.reason == None <==> CommitsAtDeadline(rows, c, |targets|, config, w.polls, n)
  {
    if CutShort(rows, c, |targets|, config, w, polled) {
      UndecidedBeforeDeadline(rows, c, targets, config, w, polled - 1, n);
      if |targets| > 0 {
        if v.reason.Some? {
          FailFastIsFinal(rows, c, |targets|, config, w.polls, polled, n);
        } else {
          AllAnsweredIsFinal(rows, c, targets, config, w.polls, polled, n);
        }
      }
    } else {
      UndecidedBeforeDeadline(rows, c, targets, config, w, polled, n);
    }
  }

  lemma UndecidedBeforeDeadline(rows: Rows, c: string, targets: seq<string>, config: Config, w: Window, m: nat, n: nat)
    requires Undecided(rows, c, |targets|, config, w, m)
    requires FillsWindow(w.start, w.timeout, config.interval, w.polls, n)
    ensures m <= n
    ensures Time(w.start, w.timeout, config.interval, w.polls, m) < w.start + w.timeout ==> m < n
    ensures Time(w.start, w.timeout, config.interval, w.polls, m) >= w.start + w.timeout ==> m == n
  {
    forall i | 0 <= i < m
      ensures Time(w.start, w.timeout, config.interval, w.polls, i) < w.start + w.timeout
    {
      assert GoesOn(rows, c, |targets|, config, w, i);
    }
  }

  // ---------------------------------------------------------------- what a commit means

  /** The targets that count against the rollout: those that failed and, once the window is closed, the silent ones. */
  function Counted(rows: Rows, c: string, targets: seq<string>, closed: bool): set<string> {
    set t | t in targets && Key(c, t) in rows
            && (rows[Key(c, t)] == FAILED || (closed && rows[Key(c, t)] == TIMED_OUT))
  }

  lemma DisjointSizes<T>(a: set<T>, b: set<T>)
    requires a !! b
    ensures |a + b| == |a| + |b|
  {
  }

  lemma BadIsCounted(rows: Rows, c: string, targets: seq<string>, closed: bool)
    requires NodesOf(rows, c) == (set t | t in targets)
    ensures Bad(rows, c, closed) == |Counted(rows, c, targets, closed)|
  {
    var failed, silent := WithStatus(rows, c, FAILED), if closed then WithStatus(rows, c, TIMED_OUT) else {};
    forall t
      ensures t in Counted(rows, c, targets, closed) <==> t in failed + silent
    {
      assert Key(c, t) in rows ==> t in NodesOf(rows, c);
    }
    assert Counted(rows, c, targets, closed) == failed + silent;
    DisjointSizes(failed, silent);
  }

  lemma RatioIff(bad: nat, n: nat, threshold: real)
    requires n > 0
    ensures bad as real / n as real > threshold <==> bad as real > threshold * n as real
  {
    var ratio := bad as real / n as real;
    assert ratio * n as real == bad as real;
    if ratio > threshold {
      assert (ratio - threshold) * n as real > 0.0;
    } else {
      assert (threshold - ratio) * n as real >= 0.0;
    }
  }

  /** A reason to roll back names the counted targets, or there is none and they are few enough. */
  lemma ReasonCounts(rows: Rows, c: string, targets: seq<string>, threshold: real, closed: bool)
    requires NodesOf(rows, c) == (set t | t in targets)
    ensures var reason, n := FailureReason(rows, c, |targets|, threshold, closed), |Counted(rows, c, targets, closed)|;
            if n as real > threshold * |targets| as real then reason == Some(TooManyFailed(n, |targets|))
            else reason == None
  {
    BadIsCounted(rows, c, targets, closed);
    if targets == [] {
      assert Counted(rows, c, targets, closed) == {};
    } else {
      RatioIff(Bad(rows, c, closed), |targets|, threshold);
    }
  }

  ghost predicate Confirmed(polls: Polls, n: nat, c: string, node: string) {
    exists i, a :: 0 <= i < n && a in polls(i).acks && Answers(a, c) && a.node == node
      && a.status == CommandQueue.SUCCEEDED
  }

  /** A decision to commit: every target answered or was timed out, and few enough of them failed. */
  ghost predicate SafeToCommit(final: Rows, c: string, targets: seq<string>, threshold: real, polls: Polls, n: nat) {
    && NodesOf(final, c) == (set t | t in targets)
    && WithStatus(final, c, PENDING) == {}
    && WithStatus(final, c, ROLLED_BACK) == {}
    && |Counted(final, c, targets, true)| as real <= threshold * |targets| as real
    && forall t :: t in WithStatus(final, c, SUCCEEDED) ==> Confirmed(polls, n, c, t)
  }

  lemma SuccessesConfirmed(rows: Rows, c: string, targets: seq<string>, polls: Polls, n: nat, t: string)
    requires JustStarted(rows, c, targets) && t in WithStatus(RowsAfter(rows, c, polls, n), c, SUCCEEDED)
    ensures Confirmed(polls, n, c, t)
  {
    RowsAfterLater(rows, c, polls, 0, n);
    RowsExplained(rows, c, targets, polls, n, Key(c, t));
  }

  lemma CommitIsSafe(rows: Rows, c: string, targets: seq<string>, config: Config, w: Window, polled: nat)
    requires JustStarted(rows, c, targets) && Waited(rows, c, |targets|, config, w, polled, Verdict(None))
    ensures SafeToCommit(RowsAtDecision(rows, c, |targets|, config, w, polled), c, targets, config.threshold, w.polls,
                         polled)
  {
    var last := RowsAfter(rows, c, w.polls, polled);
    RowsAfterLater(rows, c, w.polls, 0, polled);
    SameNodes(rows, last, c);
    NoneTimedOut(rows, c, targets, w.polls, polled);
    FinalizedKeepsFailures(last, c);
    forall t | t in WithStatus(last, c, SUCCEEDED)
      ensures Confirmed(w.polls, polled, c, t)
    {
      SuccessesConfirmed(rows, c, targets, w.polls, polled, t);
    }
    if targets == [] && CutShort(rows, c, |targets|, config, w, polled) {
      NoTargetsNoRows(rows, c, targets);
      NothingToRefresh(rows, c, w.polls, polled);
    }
    CommitIsWithinThreshold(rows, c, targets, config, w, polled);
  }

  lemma SettledCountsClosed(rows: Rows, c: string, targets: seq<string>)
    requires WithStatus(rows, c, TIMED_OUT) == {}
    ensures Counted(rows, c, targets, true) == Counted(rows, c, targets, false)
  {
    assert forall t :: Key(c, t) in rows && rows[Key(c, t)] == TIMED_OUT ==> t in WithStatus(rows, c, TIMED_OUT);
  }

  lemma TargetsStay(rows: Rows, c: string, targets: seq<string>, polls: Polls, n: nat)
    requires JustStarted(rows, c, targets)
    ensures var last := RowsAfter(rows, c, polls, n);
            NodesOf(last, c) == (set t | t in targets) == NodesOf(Finalized(last, c), c)
  {
    var last := RowsAfter(rows, c, polls, n);
    RowsAfterLater(rows, c, polls, 0, n);
    SameNodes(rows, last, c);
    FinalizedKeepsFailures(last, c);
  }

  lemma CommitIsWithinThreshold(
      rows: Rows, c: string, targets: seq<string>, config: Config, w: Window, polled: nat)
    requires JustStarted(rows, c, targets) && Waited(rows, c, |targets|, config, w, polled, Verdict(None))
    ensures |Counted(RowsAtDecision(rows, c, |targets|, config, w, polled), c, targets, true)| as real
         <= config.threshold * |targets| as real
  {
    var last := RowsAfter(rows, c, w.polls, polled);
    TargetsStay(rows, c, targets, w.polls, polled);
    if CutShort(rows, c, |targets|, config, w, polled) {
      NoneTimedOut(rows, c, targets, w.polls, polled);
      SettledCountsClosed(last, c, targets);
      ReasonCounts(last, c, targets, config.threshold, false);
    } else {
      ReasonCounts(Finalized(last, c), c, targets, config.threshold, true);
    }
  }

  /**
   What a reason to roll back stands for: a probe that failed or never answered, or the number of targets that count
   against the rollout, those FAILED at a poll or those FAILED or TIMED_OUT at the deadline, being over the threshold.
   */
  ghost predicate Justified(
      rows: Rows, c: string, targets: seq<string>, config: Config, w: Window, polled: nat, reason: Reason) {
    match reason
    case Unreachable => polled > 0 && w.polls(polled - 1).probe in {Unhealthy, Hangs}
    case TooManyFailed(bad, n) =>
      var closed := !CutShort(rows, c, |targets|, config, w, polled);
      && bad == |Counted(RowsAtDecision(rows, c, |targets|, config, w, polled), c, targets, closed)|
      && n == |targets| && bad as real > config.threshold * n as real
  }

  lemma RollbackIsJustified(
      rows: Rows, c: string, targets: seq<string>, config: Config, w: Window, polled: nat, reason: Reason)
    requires JustStarted(rows, c, targets)
    requires Waited(rows, c, |targets|, config, w, polled, Verdict(Some(reason)))
    ensures Justified(rows, c, targets, config, w, polled, reason)
  {
    var last := RowsAfter(rows, c, w.polls, polled);
    TargetsStay(rows, c, targets, w.polls, polled);
    if CutShort(rows, c, |targets|, config, w, polled) {
      ReasonCounts(last, c, targets, config.threshold, false);
    } else {
      ReasonCounts(Finalized(last, c), c, targets, config.threshold, true);
    }
  }

  lemma WaitedMeans(rows: Rows, c: string, targets: seq<string>, config: Config, w: Window, polled: nat, v: Verdict)
    requires JustStarted(rows, c, targets) && Waited(rows, c, |targets|, config, w, polled, v)
    ensures v == Verdict(None) ==>
      SafeToCommit(RowsAtDecision(rows, c, |targets|, config, w, polled), c, targets, config.threshold, w.polls, polled)
    ensures v.Verdict? && v.reason.Some? ==> Justified(rows, c, targets, config, w, polled, v.reason.value)
  {
    if v == Verdict(None) {
      CommitIsSafe(rows, c, targets, config, w, polled);
    } else if v.Verdict? {
      RollbackIsJustified(rows, c, targets, config, w, polled, v.reason.value);
    }
  }

  /** The first probe that is not healthy ends the wait: a rejecting one by its exception, any other by a rollback. */
  lemma SickProbeDecides(
      rows: Rows, c: string, targets: nat, config: Config, w: Window, polled: nat, v: Verdict, i: nat)
    requires Waited(rows, c, targets, config, w, polled, v) && i < polled && w.polls(i).probe != Healthy
    ensures i == polled - 1
    ensures v == if w.polls(i).probe == Rejects then Threw else Verdict(Some(Unreachable))
  {
    assert GoesOn(rows, c, targets, config, w, i) ==> Settles(rows, c, targets, config, w.polls, i) == None;
  }

  lemma SameNodes(a: Rows, b: Rows, c: string)
    requires a.Keys == b.Keys
    ensures NodesOf(a, c) == NodesOf(b, c)
  {
    assert forall key :: key in a <==> key in b;
  }

  /** With the default threshold of zero, a commit means that every targeted node confirmed this very commit. */
  lemma ZeroThresholdNeedsEveryNode(rows: Rows, c: string, targets: seq<string>, config: Config, w: Window, polled: nat,
                                    t: string)
    requires JustStarted(rows, c, targets) && Waited(rows, c, |targets|, config, w, polled, Verdict(None))
    requires config.threshold == 0.0 && t in targets
    ensures Confirmed(w.polls, polled, c, t)
  {
    var final := RowsAtDecision(rows, c, |targets|, config, w, polled);
    CommitIsSafe(rows, c, targets, config, w, polled);
    assert Counted(final, c, targets, true) == {};
    assert t in NodesOf(final, c) && Key(c, t) in final;
    assert t !in Counted(final, c, targets, true);
    assert t in WithStatus(final, c, final[Key(c, t)]);
    assert final[Key(c, t)] == SUCCEEDED;
  }

  // ---------------------------------------------------------------- the decision, from the logs alone

  /** The first report in a log by which a node answers for a commit. */
  function FirstAnswer(acks: seq<CommandQueue.Ack>, c: string, t: string): Option<CommandQueue.Ack> {
    if acks == [] then None
    else
      var before, last := FirstAnswer(acks[..|acks| - 1], c, t), acks[|acks| - 1];
      if before.Some? then before
      else if last.node == t && last.kind == CommandQueue.APPLY_FIREWALL && last.details.FirewallEcho?
              && last.details.commitId == Some(c) then Some(last)
      else None
  }

  /** The first such report that any of `n` polls reads. */
  function FirstSeen(polls: Polls, n: nat, c: string, t: string): Option<CommandQueue.Ack> {
    if n == 0 then None
    else
      var before := FirstSeen(polls, n - 1, c, t);
      if before.Some? then before else FirstAnswer(polls(n - 1).acks, c, t)
  }

  /** The targets that answered nothing in time, or anything but success at first. */
  function NotApplied(polls: Polls, n: nat, c: string, targets: seq<string>): set<string> {
    set t | t in targets && (var answer := FirstSeen(polls, n, c, t);
                             answer.None? || answer.value.status != CommandQueue.SUCCEEDED)
  }

  /** The status a first answer gives a row that waits for it. */
  predicate RowOf(status: RowStatus, answer: Option<CommandQueue.Ack>) {
    if answer.None? then status == PENDING
    else status == if answer.value.status == CommandQueue.SUCCEEDED then SUCCEEDED else FAILED
  }

  lemma RefreshStep(rows: Rows, c: string, acks: seq<CommandQueue.Ack>)
    requires acks != []
    ensures var before, last := Refreshed(rows, c, acks[..|acks| - 1]), acks[|acks| - 1];
            Refreshed(rows, c, acks) == if Answers(last, c) then Advance(before, c, last) else before
  {
    var init, last := acks[..|acks| - 1], acks[|acks| - 1];
    if Answers(last, c) {
      assert Selected(acks, c) == Selected(init, c) + [last];
      assert (Selected(init, c) + [last])[..|Selected(init, c)|] == Selected(init, c);
    } else {
      assert Selected(acks, c) == Selected(init, c);
    }
  }

  lemma {:induction false} RefreshTakesFirst(rows: Rows, c: string, acks: seq<CommandQueue.Ack>, t: string)
    requires Key(c, t) in rows && rows[Key(c, t)] == PENDING
    ensures Key(c, t) in Refreshed(rows, c, acks)
    ensures RowOf(Refreshed(rows, c, acks)[Key(c, t)], FirstAnswer(acks, c, t))
  {
    if acks == [] {
      assert Selected(acks, c) == [];
    } else {
      RefreshTakesFirst(rows, c, acks[..|acks| - 1], t);
      RefreshStep(rows, c, acks);
    }
  }

  lemma {:induction false} RowsTakeFirst(rows: Rows, c: string, polls: Polls, n: nat, t: string)
    requires Key(c, t) in rows && rows[Key(c, t)] == PENDING
    ensures Key(c, t) in RowsAfter(rows, c, polls, n)
    ensures RowOf(RowsAfter(rows, c, polls, n)[Key(c, t)], FirstSeen(polls, n, c, t))
  {
    if n > 0 {
      RowsTakeFirst(rows, c, polls, n - 1, t);
      var before := RowsAfter(rows, c, polls, n - 1);
      if before[Key(c, t)] == PENDING {
        RefreshTakesFirst(before, c, polls(n - 1).acks, t);
      } else {
        AdvanceAllLater(before, c, Selected(polls(n - 1).acks, c));
      }
    }
  }

  lemma CountedAtDeadline(rows: Rows, c: string, targets: seq<string>, polls: Polls, n: nat)
    requires JustStarted(rows, c, targets)
    ensures Counted(Finalized(RowsAfter(rows, c, polls, n), c), c, targets, true) == NotApplied(polls, n, c, targets)
  {
    forall t | t in targets
      ensures t in Counted(Finalized(RowsAfter(rows, c, polls, n), c), c, targets, true) <==>
        t in NotApplied(polls, n, c, targets)
    {
      assert t in NodesOf(rows, c) && Key(c, t) in rows;
      RowsTakeFirst(rows, c, polls, n, t);
    }
  }

  /**
   What the rollout decides, read off the acknowledgement logs alone: with healthy probes and no exception it commits
   exactly when the targets without a timely success as their first answer are within the threshold.
   */
  lemma DecisionFromLogs(rows: Rows, c: string, targets: seq<string>, config: Config, w: Window, polled: nat,
                         v: Verdict, n: nat)
    requires JustStarted(rows, c, targets) && Waited(rows, c, |targets|, config, w, polled, v) && Calm(w)
    requires FillsWindow(w.start, w.timeout, config.interval, w.polls, n)
    ensures v.Verdict?
    ensures v.reason == None <==>
      |NotApplied(w.polls, n, c, targets)| as real <= config.threshold * |targets| as real
  {
    EarlyExitMatchesDeadline(rows, c, targets, config, w, polled, v, n);
    DeadlineFromLogs(rows, c, targets, config, w.polls, n);
  }

  lemma DeadlineFromLogs(rows: Rows, c: string, targets: seq<string>, config: Config, polls: Polls, n: nat)
    requires JustStarted(rows, c, targets)
    ensures CommitsAtDeadline(rows, c, |targets|, config, polls, n) <==>
      |NotApplied(polls, n, c, targets)| as real <= config.threshold * |targets| as real
  {
    TargetsStay(rows, c, targets, polls, n);
    ReasonCounts(Finalized(RowsAfter(rows, c, polls, n), c), c, targets, config.threshold, true);
    CountedAtDeadline(rows, c, targets, polls, n);
  }

  // ---------------------------------------------------------------- how often it polls

  lemma {:induction false} TimeGrows(start: int, timeout: nat, interval: nat, polls: Polls, i: nat)
    ensures Time(start, timeout, interval, polls, i) >= start + i
    ensures Time(start, timeout, interval, polls, i) < start + timeout ==>
      Time(start, timeout, interval, polls, i) >= start + i * Max(1, interval)
  {
    if i > 0 {
      TimeGrows(start, timeout, interval, polls, i - 1);
      assert i * Max(1, interval) == (i - 1) * Max(1, interval) + Max(1, interval);
      WakeAdvances(Time(start, timeout, interval, polls, i - 1), start + timeout, interval, polls(i - 1));
    }
  }

  /** At most one poll per interval, rounded up, fits in the window. */
  lemma PollsBounded(rows: Rows, c: string, targets: nat, config: Config, w: Window, polled: nat, v: Verdict)
    requires Waited(rows, c, targets, config, w, polled, v) && polled > 0
    ensures (polled - 1) * Max(1, config.interval) < w.timeout
  {
    assert !CutShort(rows, c, targets, config, w, polled) ==> GoesOn(rows, c, targets, config, w, polled - 1);
    TimeGrows(w.start, w.timeout, config.interval, w.polls, polled - 1);
  }

  /** Waiting overruns the deadline by at most what its last poll takes, its timer included, and one millisecond. */
  lemma EndsInTime(rows: Rows, c: string, targets: nat, config: Config, w: Window, polled: nat)
    requires Expired(rows, c, targets, config, w, polled) && polled > 0
    ensures Time(w.start, w.timeout, config.interval, w.polls, polled)
         <= w.start + w.timeout + w.polls(polled - 1).busy + w.polls(polled - 1).oversleep + 1
  {
    var before := Time(w.start, w.timeout, config.interval, w.polls, polled - 1);
    assert GoesOn(rows, c, targets, config, w, polled - 1);
    WakePunctual(before, w.start + w.timeout, config.interval, w.polls(polled - 1));
  }

  /** Two polls are at most an interval apart, apart from the time polling takes and timers run late. */
  lemma PollsRegularly(start: int, timeout: nat, interval: nat, polls: Polls, i: nat)
    ensures Time(start, timeout, interval, polls, i + 1)
         <= Time(start, timeout, interval, polls, i) + polls(i).busy + polls(i).oversleep + Max(1, interval)
  {
    WakePunctual(Time(start, timeout, interval, polls, i), start + timeout, interval, polls(i));
  }

  /** The window always ends, so the deadline decision always exists. */
  lemma WindowEnds(start: int, timeout: nat, interval: nat, polls: Polls) returns (n: nat)
    ensures FillsWindow(start, timeout, interval, polls, n)
  {
    n := 0;
    while Time(start, timeout, interval, polls, n) < start + timeout
      invariant forall i :: 0 <= i < n ==> Time(start, timeout, interval, polls, i) < start + timeout
      decreases timeout - n
    {
      TimeGrows(start, timeout, interval, polls, n);
      n := n + 1;
    }
  }

  // ---------------------------------------------------------------- the whole call

  /** Where an exception leaves `apply`: before its try block, from inside it once compensated, or from the catch. */
  datatype Escape = BeforeTry | Compensated | InCompensation

  datatype Outcome = Rejected | Thrown(escape: Escape) | Committed | RolledBack(reason: Reason)

  /** Everything the outside world contributes to one call. */
  datatype Env = Env(
    nodes: seq<string>, stage: Fault, start: Fault, stagedPublished: bool, window: Window,
    mark: Fault, rollback: Fault, rollbackNodes: seq<string>, rolledBackPublished: bool,
    commit: Fault, committedPublished: bool,
    catchMark: Fault, catchRollback: Fault, catchNodes: seq<string>)

  /** Nothing inside the try block throws once waiting is over. */
  predicate Quiet(env: Env) {
    && env.mark == Completes && env.rollback == Completes && env.rolledBackPublished
    && env.commit == Completes && env.committedPublished
  }

  /** policy_rollout_nodes.commit_id references policy_commits. */
  ghost predicate ForeignKey(rows: Rows, commits: map<string, E.CommitStatus>) {
    forall key :: key in rows ==> key.commit in commits
  }

  ghost predicate AllRolledBack(rows: Rows, c: string) {
    forall key :: key in rows && key.commit == c ==> rows[key] == ROLLED_BACK
  }

  lemma RevertedAll(rows: Rows, c: string)
    ensures AllRolledBack(Reverted(rows, c), c) && OnlyCommit(rows, Reverted(rows, c), c)
  {
  }

  lemma StartedIsJustStarted(rows: Rows, c: string, nodes: seq<string>)
    requires NodesOf(rows, c) == {}
    ensures JustStarted(Started(rows, c, nodes), c, nodes)
    ensures forall key :: key in rows ==> key in Started(rows, c, nodes) && Started(rows, c, nodes)[key] == rows[key]
  {
    StartedRows(rows, c, nodes);
    var after := Started(rows, c, nodes);
    forall key | key in after && key.commit == c
      ensures after[key] == PENDING && key.node in nodes
    {
      assert key in rows ==> key.node in NodesOf(rows, c);
    }
    forall t | t in nodes
      ensures t in NodesOf(after, c)
    {
      assert Key(c, t) in after;
    }
  }

  class SafeApplyService {
    const enforcer: E.PgPolicyEnforcer
    const store: PgRolloutStore
    const config: Config

    constructor (enforcer: E.PgPolicyEnforcer, store: PgRolloutStore, config: Config)
      ensures this.enforcer == enforcer && this.store == store && this.config == config
    {
      this.enforcer, this.store, this.config := enforcer, store, config;
    }

    /** Marks the rows and reverts the commit; stops at the first call that throws. */
    method Revert(c: string, mark: Fault, rollback: Fault, nodes: seq<string>) returns (ok: bool)
      requires c in enforcer.commits
      modifies store, enforcer, enforcer.queue
      ensures ok <==> mark.Completes? && rollback.Completes?
      ensures OnlyCommit(old(store.rows), store.rows, c)
      ensures store.rows == if Effective(mark, 1) == 1 then Reverted(old(store.rows), c) else old(store.rows)
      ensures Effective(mark, 1) == 1 ==> AllRolledBack(store.rows, c)
      ensures var updated := mark.Completes? && Effective(rollback, |nodes| + 1) > 0;
              && enforcer.commits == SetStatus(old(enforcer.commits), c, updated)
              && enforcer.writes == old(enforcer.writes) + (if updated then [(c, E.CommitStatus.ROLLED_BACK)] else [])
              && enforcer.queue.Tables()
                 == E.Undone(old(enforcer.queue.Tables()), c, if updated then E.Reached(nodes, rollback) else [])
    {
      RevertedAll(store.rows, c);
      ok := store.MarkRolledBack(c, mark);
      if ok {
        ok := enforcer.Rollback(c, nodes, rollback);
      }
    }

    /** The body of the try block; none when something in it throws. */
    method Attempt(c: string, targets: seq<string>, env: Env, w: Window) returns (o: Option<Outcome>, polled: nat)
      requires c in enforcer.commits && JustStarted(store.rows, c, targets)
      modifies store, enforcer, enforcer.queue
      ensures OnlyCommit(old(store.rows), store.rows, c)
      ensures enforcer.commits.Keys == old(enforcer.commits).Keys
      ensures forall d :: d in enforcer.commits && d != c ==> enforcer.commits[d] == old(enforcer.commits)[d]
      ensures o.Some? ==> o.value.Committed? || o.value.RolledBack?
      ensures o == Some(Committed) ==>
        && Waited(old(store.rows), c, |targets|, config, w, polled, Verdict(None))
        && store.rows == RowsAtDecision(old(store.rows), c, |targets|, config, w, polled)
        && enforcer.commits[c] == E.COMMITTED
        && enforcer.writes == old(enforcer.writes) + [(c, E.COMMITTED)]
        && enforcer.queue.Tables() == old(enforcer.queue.Tables())
      ensures o.Some? && o.value.RolledBack? ==>
        && Waited(old(store.rows), c, |targets|, config, w, polled, Verdict(Some(o.value.reason)))
        && AllRolledBack(store.rows, c)
        && enforcer.commits[c] == E.CommitStatus.ROLLED_BACK
        && enforcer.queue.Tables() == E.Undone(old(enforcer.queue.Tables()), c, env.rollbackNodes)
      ensures o == None ==> !Calm(w) || !Quiet(env)
      ensures UndoneInPart(old(enforcer.queue.Tables()), enforcer.queue.Tables(), c, env.rollbackNodes)
      ensures WroteAtMostOne(old(enforcer.writes), enforcer.writes, c)
    {
      var v;
      v, polled := WaitForOutcome(store, c, targets, config, w);
      if v.Threw? {
        UndoneNowhere(enforcer.queue.Tables(), c, env.rollbackNodes);
        return None, polled;
      }
      o := Settle(c, v.reason, env);
    }

    /** Rolls back for the reason given, or commits when there is none; none when something throws. */
    method Settle(c: string, reason: Option<Reason>, env: Env) returns (o: Option<Outcome>)
      requires c in enforcer.commits
      modifies store, enforcer, enforcer.queue
      ensures OnlyCommit(old(store.rows), store.rows, c)
      ensures enforcer.commits.Keys == old(enforcer.commits).Keys
      ensures forall d :: d in enforcer.commits && d != c ==> enforcer.commits[d] == old(enforcer.commits)[d]
      ensures o == None ==> !Quiet(env)
      ensures o.Some? ==> o.value == if reason.Some? then RolledBack(reason.value) else Committed
      ensures reason.None? ==> store.rows == old(store.rows)
      ensures o == Some(Committed) ==>
        && enforcer.commits[c] == E.COMMITTED
        && enforcer.writes == old(enforcer.writes) + [(c, E.COMMITTED)]
        && enforcer.queue.Tables() == old(enforcer.queue.Tables())
      ensures o.Some? && o.value.RolledBack? ==>
        && AllRolledBack(store.rows, c)
        && enforcer.commits[c] == E.CommitStatus.ROLLED_BACK
        && enforcer.queue.Tables() == E.Undone(old(enforcer.queue.Tables()), c, env.rollbackNodes)
      ensures UndoneInPart(old(enforcer.queue.Tables()), enforcer.queue.Tables(), c, env.rollbackNodes)
      ensures WroteAtMostOne(old(enforcer.writes), enforcer.writes, c)
    {
      UndoneNowhere(enforcer.queue.Tables(), c, env.rollbackNodes);
      if reason.Some? {
        UndoneReached(enforcer.queue.Tables(), c, env.rollbackNodes, env.rollback);
        var ok := Revert(c, env.mark, env.rollback, env.rollbackNodes);
        return if ok && env.rolledBackPublished then Some(RolledBack(reason.value)) else None;
      }
      var ok := enforcer.Commit(c, env.commit);
      o := if ok && env.committedPublished then Some(Committed) else None;
    }

    /** Everything before the try block: staging, opening the rows and announcing them. */
    method Prepare(c: string, policies: seq<Policy.NetworkPolicy>, env: Env) returns (ok: bool)
      requires ForeignKey(store.rows, enforcer.commits)
      modifies store, enforcer, enforcer.queue
      ensures ok <==> Opens(policies, c in old(enforcer.commits), env)
      ensures store.rows == Opened(old(store.rows), c, policies, c in old(enforcer.commits), env)
      ensures ok ==> store.rows == Started(old(store.rows), c, env.nodes) && JustStarted(store.rows, c, env.nodes)
      ensures var inserted := E.Inserts(policies, c in old(enforcer.commits), env.stage, |env.nodes|);
              && enforcer.commits == (if inserted then old(enforcer.commits)[c := E.STAGED] else old(enforcer.commits))
              && enforcer.writes == old(enforcer.writes) + (if inserted then [(c, E.STAGED)] else [])
              && enforcer.queue.Tables() == E.Staged(old(enforcer.queue.Tables()), c, policies,
                                                     if inserted then E.Reached(env.nodes, env.stage) else [])
      ensures OthersKept(old(store.rows), store.rows, c)
      ensures ForeignKey(store.rows, enforcer.commits)
    {
      ok := enforcer.Stage(c, policies, env.nodes, env.stage);
      if ok {
        NoRowsYet(store.rows, old(enforcer.commits), c);
        StartedIsJustStarted(store.rows, c, env.nodes);
        StartedRows(store.rows, c, env.nodes[..Effective(env.start, |env.nodes|)]);
        ok := store.Start(c, env.nodes, env.start);
        assert env.nodes[..|env.nodes|] == env.nodes;
        ok := ok && env.stagedPublished;
      }
    }

    /** The try block and its catch. */
    method Conclude(c: string, targets: seq<string>, env: Env, w: Window, ghost before: seq<(string, E.CommitStatus)>)
      returns (outcome: Outcome, polled: nat)
      requires c in enforcer.commits && JustStarted(store.rows, c, targets)
      requires enforcer.writes == before + [(c, E.STAGED)]
      modifies store, enforcer, enforcer.queue
      ensures OnlyCommit(old(store.rows), store.rows, c)
      ensures enforcer.commits.Keys == old(enforcer.commits).Keys
      ensures forall d :: d in enforcer.commits && d != c ==> enforcer.commits[d] == old(enforcer.commits)[d]
      ensures outcome != Rejected && outcome != Thrown(BeforeTry)
      ensures outcome.Committed? || outcome.RolledBack? ==>
        Waited(old(store.rows), c, |targets|, config, w, polled,
               Verdict(if outcome.Committed? then None else Some(outcome.reason)))
      ensures outcome.Committed? ==>
        && SafeToCommit(store.rows, c, targets, config.threshold, w.polls, polled)
        && enforcer.commits[c] == E.COMMITTED
        && enforcer.writes == before + [(c, E.STAGED), (c, E.COMMITTED)]
      ensures outcome.RolledBack? || outcome == Thrown(Compensated) ==>
        enforcer.commits[c] == E.CommitStatus.ROLLED_BACK && AllRolledBack(store.rows, c)
      ensures outcome == Thrown(InCompensation) ==> HalfCompensated(env, store.rows, enforcer.commits, c)
      ensures QueueAgrees(outcome, env, old(enforcer.queue.Tables()), enforcer.queue.Tables(), c)
      ensures outcome.Thrown? ==> !Calm(w) || !Quiet(env)
      ensures NeverRevived(before, enforcer.writes, c)
    {
      var o;
      o, polled := Attempt(c, targets, env, w);
      if o.Some? {
        if o.value.Committed? {
          CommitIsSafe(old(store.rows), c, targets, config, w, polled);
        }
        NotRevived(before, enforcer.writes, enforcer.writes, c);
        return o.value, polled;
      }
      ghost var attempted := enforcer.writes;
      outcome := Compensate(c, env, old(enforcer.queue.Tables()));
      NotRevived(before, attempted, enforcer.writes, c);
    }

    /** The catch block: reverts what it can and lets the exception go on. */
    method Compensate(c: string, env: Env, ghost before: CommandQueue.Queue) returns (outcome: Outcome)
      requires c in enforcer.commits
      requires UndoneInPart(before, enforcer.queue.Tables(), c, env.rollbackNodes)
      modifies store, enforcer, enforcer.queue
      ensures outcome == Thrown(Compensated) || outcome == Thrown(InCompensation)
      ensures OnlyCommit(old(store.rows), store.rows, c)
      ensures c in enforcer.commits && enforcer.commits.Keys == old(enforcer.commits).Keys
      ensures forall d :: d in enforcer.commits && d != c ==> enforcer.commits[d] == old(enforcer.commits)[d]
      ensures outcome == Thrown(Compensated) ==>
        enforcer.commits[c] == E.CommitStatus.ROLLED_BACK && AllRolledBack(store.rows, c)
      ensures outcome == Thrown(InCompensation) ==> HalfCompensated(env, store.rows, enforcer.commits, c)
      ensures QueueAgrees(outcome, env, before, enforcer.queue.Tables(), c)
      ensures || enforcer.writes == old(enforcer.writes)
              || enforcer.writes == old(enforcer.writes) + [(c, E.CommitStatus.ROLLED_BACK)]
    {
      UndoneNowhere(enforcer.queue.Tables(), c, env.catchNodes);
      UndoneReached(enforcer.queue.Tables(), c, env.catchNodes, env.catchRollback);
      var ok := Revert(c, env.catchMark, env.catchRollback, env.catchNodes);
      outcome := Thrown(if ok then Compensated else InCompensation);
    }

    /**
     One call of `apply`. The outcome agrees with what the tables end up saying, and other commits are untouched.
     */
    method Apply(c: string, policies: seq<Policy.NetworkPolicy>, timeout: int, env: Env)
      returns (outcome: Outcome, polled: nat)
      requires ForeignKey(store.rows, enforcer.commits)
      modifies store, enforcer, enforcer.queue
      ensures ForeignKey(store.rows, enforcer.commits)
      // other commits
      ensures OthersKept(old(store.rows), store.rows, c)
      ensures forall d :: d in old(enforcer.commits) && d != c ==>
        d in enforcer.commits && enforcer.commits[d] == old(enforcer.commits)[d]
      // which outcome
      ensures outcome.Rejected? <==> !(5_000 <= timeout <= 300_000)
      ensures outcome == Thrown(BeforeTry) <==>
        5_000 <= timeout <= 300_000 && !Opens(policies, c in old(enforcer.commits), env)
      ensures outcome.Committed? || outcome.RolledBack? ==>
        Waited(Started(old(store.rows), c, env.nodes), c, |env.nodes|, config, env.window.(timeout := timeout), polled,
               Verdict(if outcome.Committed? then None else Some(outcome.reason)))
      ensures outcome.RolledBack? ==>
        Justified(Started(old(store.rows), c, env.nodes), c, env.nodes, config, env.window.(timeout := timeout), polled,
                  outcome.reason)
      ensures outcome.Thrown? && outcome.escape != BeforeTry ==> !Calm(env.window) || !Quiet(env)
      // what each outcome leaves in the tables
      ensures outcome.Rejected? ==>
        && store.rows == old(store.rows) && enforcer.commits == old(enforcer.commits)
        && enforcer.writes == old(enforcer.writes) && enforcer.queue.Tables() == old(enforcer.queue.Tables())
      ensures outcome == Thrown(BeforeTry) ==>
        store.rows == Opened(old(store.rows), c, policies, c in old(enforcer.commits), env)
      ensures outcome == Thrown(BeforeTry) ==>
        var inserted := E.Inserts(policies, c in old(enforcer.commits), env.stage, |env.nodes|);
        && enforcer.commits == (if inserted then old(enforcer.commits)[c := E.STAGED] else old(enforcer.commits))
        && enforcer.queue.Tables() == E.Staged(old(enforcer.queue.Tables()), c, policies,
                                               if inserted then E.Reached(env.nodes, env.stage) else [])
      ensures outcome.Committed? ==>
        && c in enforcer.commits && enforcer.commits[c] == E.COMMITTED
        && SafeToCommit(store.rows, c, env.nodes, config.threshold, env.window.polls, polled)
        && enforcer.writes == old(enforcer.writes) + [(c, E.STAGED), (c, E.COMMITTED)]
      ensures outcome.RolledBack? || outcome == Thrown(Compensated) ==>
        && c in enforcer.commits && enforcer.commits[c] == E.CommitStatus.ROLLED_BACK
        && AllRolledBack(store.rows, c)
      ensures outcome == Thrown(InCompensation) ==>
        c in enforcer.commits && HalfCompensated(env, store.rows, enforcer.commits, c)
      ensures !outcome.Rejected? && outcome != Thrown(BeforeTry) ==>
        QueueAgrees(outcome, env, E.Staged(old(enforcer.queue.Tables()), c, policies, env.nodes),
                    enforcer.queue.Tables(), c)
      ensures NeverRevived(old(enforcer.writes), enforcer.writes, c)
    {
      if timeout < 5_000 || timeout > 300_000 {
        return Rejected, 0;
      }
      var ok := Prepare(c, policies, env);
      if !ok {
        return Thrown(BeforeTry), 0;
      }
      ghost var started, w := store.rows, env.window.(timeout := timeout);
      outcome, polled := Conclude(c, env.nodes, env, env.window.(timeout := timeout), old(enforcer.writes));
      if outcome.RolledBack? {
        RollbackIsJustified(started, c, env.nodes, config, w, polled, outcome.reason);
      }
    }

    /** At one such input: the rows cannot be opened, and the commit stays STAGED with its rules on their way. */
    method StrandedByStart(c: string, policies: seq<Policy.NetworkPolicy>, timeout: int, env: Env)
      returns (outcome: Outcome)
      requires ForeignKey(store.rows, enforcer.commits) && 5_000 <= timeout <= 300_000
      requires Policy.Compile(policies).Some? && c !in enforcer.commits
      requires env.stage == Completes && env.start.Throws?
      modifies store, enforcer, enforcer.queue
      ensures outcome == Thrown(BeforeTry)
      ensures c in enforcer.commits && enforcer.commits[c] == E.STAGED
      ensures store.rows == Started(old(store.rows), c, env.nodes[..Effective(env.start, |env.nodes|)])
      ensures enforcer.queue.Tables() == E.Staged(old(enforcer.queue.Tables()), c, policies, env.nodes)
    {
      var polled;
      outcome, polled := Apply(c, policies, timeout, env);
    }
  }

  ghost predicate WroteAtMostOne(
      before: seq<(string, E.CommitStatus)>, after: seq<(string, E.CommitStatus)>, c: string) {
    after == before || exists status :: after == before + [(c, status)]
  }

  lemma NotRevived(before: seq<(string, E.CommitStatus)>, attempted: seq<(string, E.CommitStatus)>,
                   after: seq<(string, E.CommitStatus)>, c: string)
    requires WroteAtMostOne(before + [(c, E.STAGED)], attempted, c)
    requires after == attempted || after == attempted + [(c, E.CommitStatus.ROLLED_BACK)]
    ensures NeverRevived(before, after, c)
  {
    assert before <= before + [(c, E.STAGED)] <= attempted <= after;
  }

  /** Whether `apply` gets into its try block. */
  predicate Opens(policies: seq<Policy.NetworkPolicy>, used: bool, env: Env) {
    && Policy.Compile(policies).Some? && !used
    && env.stage == Completes && env.start == Completes && env.stagedPublished
  }

  /** The rows once the calls before the try block are over: none is added unless `stage` succeeds. */
  function Opened(rows: Rows, c: string, policies: seq<Policy.NetworkPolicy>, used: bool, env: Env): Rows {
    if Policy.Compile(policies).Some? && !used && env.stage == Completes
    then Started(rows, c, env.nodes[..Effective(env.start, |env.nodes|)])
    else rows
  }

  function SetStatus(commits: map<string, E.CommitStatus>, c: string, updated: bool): map<string, E.CommitStatus> {
    if updated then commits[c := E.CommitStatus.ROLLED_BACK] else commits
  }

  /** The rollback commands of a call that may have stopped part-way. */
  ghost predicate UndoneInPart(before: CommandQueue.Queue, after: CommandQueue.Queue, c: string, nodes: seq<string>) {
    exists k :: 0 <= k <= |nodes| && after == E.Undone(before, c, nodes[..k])
  }

  lemma UndoneNowhere(q: CommandQueue.Queue, c: string, nodes: seq<string>)
    ensures UndoneInPart(q, q, c, nodes)
  {
    assert q == E.Undone(q, c, nodes[..0]);
  }

  lemma UndoneReached(q: CommandQueue.Queue, c: string, nodes: seq<string>, fault: Fault)
    ensures UndoneInPart(q, E.Undone(q, c, E.Reached(nodes, fault)), c, nodes)
  {
    var k := Max(0, Effective(fault, |nodes| + 1) - 1);
    assert E.Reached(nodes, fault) == nodes[..k];
  }

  /** The queue after the try block and its catch, given the queue before them. */
  ghost predicate QueueAgrees(
      outcome: Outcome, env: Env, before: CommandQueue.Queue, after: CommandQueue.Queue, c: string) {
    match outcome
    case Committed => after == before
    case RolledBack(_) => after == E.Undone(before, c, env.rollbackNodes)
    case Thrown(Compensated) =>
      exists q :: UndoneInPart(before, q, c, env.rollbackNodes) && after == E.Undone(q, c, env.catchNodes)
    case _ => exists q :: UndoneInPart(before, q, c, env.rollbackNodes) && UndoneInPart(q, after, c, env.catchNodes)
  }

  /** What a compensation that throws itself leaves behind. */
  ghost predicate HalfCompensated(env: Env, rows: Rows, commits: map<string, E.CommitStatus>, c: string)
    requires c in commits
  {
    && (env.catchMark.Throws? || env.catchRollback.Throws?)
    && (Effective(env.catchMark, 1) == 1 ==> AllRolledBack(rows, c))
    && (env.catchMark.Completes? && Effective(env.catchRollback, |env.catchNodes| + 1) > 0 ==>
         commits[c] == E.CommitStatus.ROLLED_BACK)
  }

  ghost predicate OthersKept(before: Rows, after: Rows, c: string) {
    forall key :: key in before && key.commit != c ==> key in after && after[key] == before[key]
  }

  lemma NoRowsYet(rows: Rows, commits: map<string, E.CommitStatus>, c: string)
    requires ForeignKey(rows, commits) && c !in commits
    ensures NodesOf(rows, c) == {}
  {
  }

  /** The call only appends to the history of status writes, and never commits after having rolled back. */
  ghost predicate NeverRevived(before: seq<(string, E.CommitStatus)>,
                               after: seq<(string, E.CommitStatus)>, c: string) {
    && before <= after
    && (forall i :: |before| <= i < |after| ==> after[i].0 == c)
    && (forall i, j :: |before| <= i < j < |after| && after[i].1 == E.CommitStatus.ROLLED_BACK ==>
      after[j].1 == E.CommitStatus.ROLLED_BACK)
  }

  // ---------------------------------------------------------------- rollouts answered by this repository's agent

  /** The log entry the queue writes for a report of the agent. */
  predicate Recorded(a: CommandQueue.Ack) {
    a.status == a.details.Status()
  }

  function AckOf(id: nat, node: string, p: CommandQueue.Payload, details: CommandQueue.Details): CommandQueue.Ack {
    CommandQueue.Ack(id, node, p.Kind(), details.Status(), details)
  }

  /** Only a successful application of this commit's rules ever answers for it: a failure report names no commit. */
  lemma AnswerMeansApplied(s: Agent.AgentState, p: CommandQueue.Payload, fate: Agent.Fate, h: Agent.Hash,
                           lt: CanonicalJson.Order, id: nat, node: string, c: string)
    ensures var (after, details) := Agent.Executed(s, p, fate, h, lt);
            && Recorded(AckOf(id, node, p, details))
            && (Answers(AckOf(id, node, p, details), c) <==>
                p.ApplyFirewall? && p.commitId == Some(c) && fate == Agent.Succeeds)
            && (Answers(AckOf(id, node, p, details), c) ==> after.firewall == p.rules)
  {
  }

  lemma AgentsNeverMarkFailed(rows: Rows, c: string, targets: seq<string>, polls: Polls, n: nat)
    requires JustStarted(rows, c, targets)
    requires forall i, a :: 0 <= i < n && a in polls(i).acks ==> Recorded(a)
    ensures WithStatus(RowsAfter(rows, c, polls, n), c, FAILED) == {}
  {
    forall i, a | 0 <= i < n && a in polls(i).acks && Answers(a, c)
      ensures Judged(a) == SUCCEEDED
    {
      assert Recorded(a);
    }
    RowsAfterLater(rows, c, polls, 0, n);
    forall key | key in rows && key.commit == c
      ensures RowsAfter(rows, c, polls, n)[key] != FAILED
    {
      RowsExplained(rows, c, targets, polls, n, key);
    }
  }

  /**
   The fail-fast exit is never taken for an explicit failure of this repository's agent: such a failure is only noticed
   as a timeout, after the whole window.
   */
  lemma AgentFailureWaitsForDeadline(rows: Rows, c: string, targets: seq<string>, config: Config, w: Window,
                                     polled: nat, v: Verdict)
    requires JustStarted(rows, c, targets) && Waited(rows, c, |targets|, config, w, polled, v)
    requires Calm(w) && config.threshold >= 0.0
    requires forall i, a :: 0 <= i < polled && a in w.polls(i).acks ==> Recorded(a)
    requires v != Verdict(None)
    ensures Expired(rows, c, |targets|, config, w, polled)
  {
    AgentsNeverMarkFailed(rows, c, targets, w.polls, polled);
  }
}
