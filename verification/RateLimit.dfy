/**
 The in-memory sliding-window rate limiter (src/api/rest/rate-limit.ts): it keeps only the admitted calls still inside
 the window, and a periodic sweep drops what is older than an hour. It is compared with a limiter that forgets nothing.
 */
module RateLimit {
  import opened Wrappers

  datatype Rule = Rule(limit: int, windowMs: int)

  /** `resetAt` is missing when a call is refused with no admitted call on record (a limit of zero or less). */
  datatype Result = Result(allowed: bool, remaining: int, resetAt: Option<int>)

  /** Callers are told apart by an arbitrary text. */
  datatype Key = Key(text: string)

  type Log = map<Key, seq<int>>

  const SWEEP_MS := 3_600_000

  function Get(log: Log, key: Key): seq<int> {
    if key in log then log[key] else []
  }

  /** The times after `start`, in order. */
  function Recent(s: seq<int>, start: int): seq<int> {
    if s == [] then []
    else Recent(s[..|s| - 1], start) + if s[|s| - 1] > start then [s[|s| - 1]] else []
  }

  // ---------------------------------------------------------------- the limiter

  function Checked(hits: Log, key: Key, rule: Rule, now: int): (Log, Result) {
    var existing := Recent(Get(hits, key), now - rule.windowMs);
    if |existing| >= rule.limit then
      (hits[key := existing],
       Result(false, 0, if existing == [] then None else Some(existing[0] + rule.windowMs)))
    else
      (hits[key := existing + [now]],
       Result(true, rule.limit - |existing| - 1, Some(now + rule.windowMs)))
  }

  function Swept(hits: Log, now: int): Log {
    map key | key in hits && Recent(hits[key], now - SWEEP_MS) != [] :: Recent(hits[key], now - SWEEP_MS)
  }

  class MemoryRateLimiter {
    var hits: Log

    constructor ()
      ensures hits == map[]
    {
      hits := map[];
    }

    method Check(key: Key, rule: Rule, now: int) returns (r: Result)
      modifies this
      ensures (hits, r) == Checked(old(hits), key, rule, now)
    {
      var windowStart := now - rule.windowMs;
      var existing := Recent(Get(hits, key), windowStart);
      if |existing| >= rule.limit {
        hits := hits[key := existing];
        return Result(false, 0, if existing == [] then None else Some(existing[0] + rule.windowMs));
      }
      existing := existing + [now];
      hits := hits[key := existing];
      r := Result(true, rule.limit - |existing|, Some(now + rule.windowMs));
    }

    method Sweep(now: int)
      modifies this
      ensures hits == Swept(old(hits), now)
    {
      var keys := hits.Keys;
      while keys != {}
        invariant keys <= old(hits).Keys
        invariant forall key :: key in keys ==> key in hits && hits[key] == old(hits)[key]
        invariant forall key :: key in hits && key !in keys ==> key in Swept(old(hits), now)
        invariant forall key :: key in Swept(old(hits), now) && key !in keys ==>
          key in hits && hits[key] == Swept(old(hits), now)[key]
        decreases keys
      {
        var key :| key in keys;
        var kept := Recent(hits[key], now - SWEEP_MS);
        if kept != [] {
          hits := hits[key := kept];
        } else {
          hits := hits - {key};
        }
        keys := keys - {key};
      }
    }
  }

  // ---------------------------------------------------------------- the limiter that forgets nothing

  /** `log` holds every admitted call ever. */
  function Reference(log: Log, key: Key, rule: Rule, now: int): (Log, Result) {
    var existing := Recent(Get(log, key), now - rule.windowMs);
    if |existing| >= rule.limit then
      (log, Result(false, 0, if existing == [] then None else Some(existing[0] + rule.windowMs)))
    else
      (log[key := Get(log, key) + [now]], Result(true, rule.limit - |existing| - 1, Some(now + rule.windowMs)))
  }

  lemma RecentAppend(s: seq<int>, t: int, start: int)
    ensures Recent(s + [t], start) == Recent(s, start) + if t > start then [t] else []
  {
    assert (s + [t])[..|s|] == s;
  }

  /** Dropping what is old first does not change what is recent. */
  lemma {:induction false} RecentRecent(s: seq<int>, first: int, start: int)
    requires first <= start
    ensures Recent(Recent(s, first), start) == Recent(s, start)
  {
    if s != [] {
      var init, last := s[..|s| - 1], s[|s| - 1];
      RecentRecent(init, first, start);
      if last > first {
        RecentAppend(Recent(init, first), last, start);
      } else {
        assert Recent(s, first) == Recent(init, first) && Recent(s, start) == Recent(init, start);
      }
    }
  }

  // ---------------------------------------------------------------- runs

  datatype Op = Checks(key: Key, now: int) | Sweeps(now: int)

  type Rules = Key -> Rule

  datatype State = State(hits: Log, log: Log, answers: seq<Result>, expected: seq<Result>)

  function Next(s: State, op: Op, rules: Rules): State {
    match op
    case Checks(key, now) =>
      var (hits, r) := Checked(s.hits, key, rules(key), now);
      var (log, x) := Reference(s.log, key, rules(key), now);
      State(hits, log, s.answers + [r], s.expected + [x])
    case Sweeps(now) => s.(hits := Swept(s.hits, now))
  }

  function After(ops: seq<Op>, rules: Rules): State {
    if ops == [] then State(map[], map[], [], [])
    else Next(After(ops[..|ops| - 1], rules), ops[|ops| - 1], rules)
  }

  ghost predicate InOrder(ops: seq<Op>) {
    forall i, j :: 0 <= i < j < |ops| ==> ops[i].now <= ops[j].now
  }

  /** No key that admits anything has a window longer than what the sweep keeps. */
  ghost predicate WindowsSwept(rules: Rules) {
    forall key :: rules(key).windowMs <= SWEEP_MS || rules(key).limit <= 0
  }

  /** From time `now` on, both limiters see the same recent calls. */
  ghost predicate Agree(hits: Log, log: Log, rules: Rules, now: int) {
    AgreeRecently(hits, log, rules, now) && AgreeEmpty(hits, log, rules)
  }

  ghost predicate AgreeRecently(hits: Log, log: Log, rules: Rules, now: int) {
    forall key, start :: start >= now - rules(key).windowMs ==> SameRecent(hits, log, key, start)
  }

  ghost predicate AgreeEmpty(hits: Log, log: Log, rules: Rules) {
    forall key :: rules(key).limit <= 0 ==> Empty(hits, log, key)
  }

  predicate SameRecent(hits: Log, log: Log, key: Key, start: int) {
    Recent(Get(hits, key), start) == Recent(Get(log, key), start)
  }

  predicate Empty(hits: Log, log: Log, key: Key) {
    Get(hits, key) == Get(log, key) == []
  }

  /** Pruning to a window, then recording a call, keeps what is recent from there on. */
  lemma PrunedAgrees(kept: seq<int>, all: seq<int>, from: int, start: int, calls: seq<int>)
    requires from <= start && Recent(kept, start) == Recent(all, start) && |calls| <= 1
    ensures Recent(Recent(kept, from) + calls, start) == Recent(all + calls, start)
  {
    RecentRecent(kept, from, start);
    if calls == [] {
      assert Recent(kept, from) + calls == Recent(kept, from) && all + calls == all;
    } else {
      assert calls == [calls[0]];
      RecentAppend(Recent(kept, from), calls[0], start);
      RecentAppend(all, calls[0], start);
    }
  }

  /** Both limiters answer alike when they see the same recent calls. */
  lemma CheckedAlike(hits: Log, log: Log, key: Key, rule: Rule, now: int)
    requires SameRecent(hits, log, key, now - rule.windowMs)
    ensures var (hits', r) := Checked(hits, key, rule, now);
            var (log', x) := Reference(log, key, rule, now);
            && r == x
            && Get(hits', key) == Recent(Get(hits, key), now - rule.windowMs) + (if r.allowed then [now] else [])
            && Get(log', key) == Get(log, key) + (if r.allowed then [now] else [])
            && (rule.limit <= 0 ==> !r.allowed)
  {
  }

  ghost predicate OthersKept(a: Log, b: Log, key: Key) {
    forall other :: other != key ==> Get(a, other) == Get(b, other)
  }

  lemma CheckedKeepsOthers(hits: Log, log: Log, key: Key, rule: Rule, now: int)
    ensures OthersKept(Checked(hits, key, rule, now).0, hits, key)
    ensures OthersKept(Reference(log, key, rule, now).0, log, key)
  {
  }

  lemma UpdateSame(hits: Log, log: Log, hits': Log, log': Log, from: int, key: Key, calls: seq<int>, k: Key,
                   start: int)
    requires SameRecent(hits, log, k, start) && |calls| <= 1
    requires Get(hits', key) == Recent(Get(hits, key), from) + calls && Get(log', key) == Get(log, key) + calls
    requires k == key ==> from <= start
    requires k != key ==> Get(hits', k) == Get(hits, k) && Get(log', k) == Get(log, k)
    ensures SameRecent(hits', log', k, start)
  {
    if k == key {
      PrunedAgrees(Get(hits, key), Get(log, key), from, start, calls);
    }
  }

  lemma UpdateEmpty(hits: Log, log: Log, hits': Log, log': Log, from: int, key: Key, calls: seq<int>, k: Key)
    requires Empty(hits, log, k) && (k == key ==> calls == [])
    requires Get(hits', key) == Recent(Get(hits, key), from) + calls && Get(log', key) == Get(log, key) + calls
    requires k != key ==> Get(hits', k) == Get(hits, k) && Get(log', k) == Get(log, k)
    ensures Empty(hits', log', k)
  {
  }

  lemma UpdateAgrees(hits: Log, log: Log, hits': Log, log': Log, rules: Rules, before: int, now: int, key: Key,
                     calls: seq<int>)
    requires AgreeRecently(hits, log, rules, before) && before <= now && |calls| <= 1
    requires Get(hits', key) == Recent(Get(hits, key), now - rules(key).windowMs) + calls
    requires Get(log', key) == Get(log, key) + calls
    requires OthersKept(hits', hits, key) && OthersKept(log', log, key)
    ensures AgreeRecently(hits', log', rules, now)
  {
    forall k, start | start >= now - rules(k).windowMs
      ensures SameRecent(hits', log', k, start)
    {
      assert SameRecent(hits, log, k, start);
      UpdateSame(hits, log, hits', log', now - rules(key).windowMs, key, calls, k, start);
    }
  }

  lemma UpdateAgreesEmpty(hits: Log, log: Log, hits': Log, log': Log, rules: Rules, from: int, key: Key,
                          calls: seq<int>)
    requires AgreeEmpty(hits, log, rules) && (rules(key).limit <= 0 ==> calls == [])
    requires Get(hits', key) == Recent(Get(hits, key), from) + calls && Get(log', key) == Get(log, key) + calls
    requires OthersKept(hits', hits, key) && OthersKept(log', log, key)
    ensures AgreeEmpty(hits', log', rules)
  {
    forall k | rules(k).limit <= 0
      ensures Empty(hits', log', k)
    {
      UpdateEmpty(hits, log, hits', log', from, key, calls, k);
    }
  }

  lemma CheckAgrees(hits: Log, log: Log, rules: Rules, before: int, key: Key, now: int)
    requires Agree(hits, log, rules, before) && before <= now
    ensures Agree(Checked(hits, key, rules(key), now).0, Reference(log, key, rules(key), now).0, rules, now)
    ensures Checked(hits, key, rules(key), now).1 == Reference(log, key, rules(key), now).1
  {
    assert SameRecent(hits, log, key, now - rules(key).windowMs);
    CheckedAlike(hits, log, key, rules(key), now);
    CheckedKeepsOthers(hits, log, key, rules(key), now);
    var (hits', r) := Checked(hits, key, rules(key), now);
    var log' := Reference(log, key, rules(key), now).0;
    var calls := if r.allowed then [now] else [];
    UpdateAgrees(hits, log, hits', log', rules, before, now, key, calls);
    UpdateAgreesEmpty(hits, log, hits', log', rules, now - rules(key).windowMs, key, calls);
  }

  lemma SweepAgrees(hits: Log, log: Log, rules: Rules, before: int, now: int)
    requires Agree(hits, log, rules, before) && before <= now && WindowsSwept(rules)
    ensures Agree(Swept(hits, now), log, rules, now)
  {
    forall key, start | start >= now - rules(key).windowMs
      ensures SameRecent(Swept(hits, now), log, key, start)
    {
      assert SameRecent(hits, log, key, start);
      if rules(key).limit > 0 {
        RecentRecent(Get(hits, key), now - SWEEP_MS, start);
      } else {
        assert Empty(hits, log, key);
      }
    }
    forall key | rules(key).limit <= 0
      ensures Empty(Swept(hits, now), log, key)
    {
      assert Empty(hits, log, key);
    }
  }

  lemma {:induction false} RunAgrees(ops: seq<Op>, rules: Rules, now: int)
    requires InOrder(ops) && WindowsSwept(rules) && (ops != [] ==> ops[|ops| - 1].now <= now)
    ensures Agree(After(ops, rules).hits, After(ops, rules).log, rules, now)
    ensures After(ops, rules).answers == After(ops, rules).expected
  {
    if ops != [] {
      var init, last := ops[..|ops| - 1], ops[|ops| - 1];
      RunAgrees(init, rules, last.now);
      if last.Checks? {
        CheckAgrees(After(init, rules).hits, After(init, rules).log, rules, last.now, last.key, last.now);
      } else {
        SweepAgrees(After(init, rules).hits, After(init, rules).log, rules, last.now, last.now);
      }
    }
  }

  /**
   As long as no window is longer than the sweep's hour, pruning and sweeping are unobservable: every answer is the one
   of the limiter that forgets nothing.
   */
  lemma PruningUnobservable(ops: seq<Op>, rules: Rules)
    requires InOrder(ops) && WindowsSwept(rules)
    ensures After(ops, rules).answers == After(ops, rules).expected
  {
    RunAgrees(ops, rules, if ops == [] then 0 else ops[|ops| - 1].now);
  }

  /** For every longer window the sweep is observable: the call it forgot no longer counts. */
  lemma SweepObservable(rules: Rules, key: Key)
    requires rules(key).windowMs > SWEEP_MS && rules(key).limit >= 1
    ensures var ops := [Checks(key, 0)] + [Sweeps(SWEEP_MS)] + [Checks(key, SWEEP_MS)];
            InOrder(ops) && After(ops, rules).answers != After(ops, rules).expected
  {
    ThreeSteps(Checks(key, 0), Sweeps(SWEEP_MS), Checks(key, SWEEP_MS), rules);
    FirstStep(rules, key);
    ForgottenStep(Next(Next(State(map[], map[], [], []), Checks(key, 0), rules), Sweeps(SWEEP_MS), rules), rules, key);
  }

  lemma FirstStep(rules: Rules, key: Key)
    requires rules(key).limit >= 1
    ensures var s := Next(Next(State(map[], map[], [], []), Checks(key, 0), rules), Sweeps(SWEEP_MS), rules);
            s.hits == map[] && s.log == map[key := [0]] && |s.answers| == |s.expected| == 1
  {
    FirstCheck(key, rules(key), 0);
    SweptEmpty(key);
  }

  lemma ForgottenStep(s: State, rules: Rules, key: Key)
    requires s.hits == map[] && s.log == map[key := [0]] && |s.answers| == |s.expected| == 1
    requires rules(key).windowMs > SWEEP_MS && rules(key).limit >= 1
    ensures Next(s, Checks(key, SWEEP_MS), rules).answers != Next(s, Checks(key, SWEEP_MS), rules).expected
  {
    var t := Next(s, Checks(key, SWEEP_MS), rules);
    SecondCheck(key, rules(key));
    assert t.answers[1] != t.expected[1];
  }

  lemma ThreeSteps(a: Op, b: Op, c: Op, rules: Rules)
    ensures After([a] + [b] + [c], rules) == Next(Next(Next(State(map[], map[], [], []), a, rules), b, rules), c, rules)
  {
    AfterStep([], a, rules);
    AfterStep([a], b, rules);
    AfterStep([a] + [b], c, rules);
    assert [] + [a] == [a];
  }

  lemma SweptEmpty(key: Key)
    ensures Swept(map[key := [0]], SWEEP_MS) == map[]
  {
    assert Recent([0], 0) == [];
  }

  lemma SecondCheck(key: Key, rule: Rule)
    requires rule.limit >= 1 && rule.windowMs > SWEEP_MS
    ensures Checked(map[], key, rule, SWEEP_MS).1 != Reference(map[key := [0]], key, rule, SWEEP_MS).1
  {
    var none: Log := map[];
    assert Recent(Get(none, key), SWEEP_MS - rule.windowMs) == [];
    assert Recent([0], SWEEP_MS - rule.windowMs) == [0];
  }

  lemma FirstCheck(key: Key, rule: Rule, now: int)
    requires rule.limit >= 1
    ensures Checked(map[], key, rule, now).0 == map[key := [now]] == Reference(map[], key, rule, now).0
  {
    var none: Log, existing: seq<int> := map[], [];
    assert Get(none, key) == [] && Recent(existing, now - rule.windowMs) == existing;
    assert existing + [now] == [now] && none[key := [now]] == map[key := [now]];
  }

  lemma AfterStep(ops: seq<Op>, op: Op, rules: Rules)
    ensures After(ops + [op], rules) == Next(After(ops, rules), op, rules)
  {
    assert (ops + [op])[..|ops|] == ops;
  }

  /** Exactly when pruning and sweeping never show. */
  lemma UnobservableIff(rules: Rules)
    ensures WindowsSwept(rules) <==>
      forall ops :: InOrder(ops) ==> After(ops, rules).answers == After(ops, rules).expected
  {
    if WindowsSwept(rules) {
      forall ops | InOrder(ops)
        ensures After(ops, rules).answers == After(ops, rules).expected
      {
        PruningUnobservable(ops, rules);
      }
    } else {
      var key :| rules(key).windowMs > SWEEP_MS && rules(key).limit > 0;
      SweepObservable(rules, key);
    }
  }

  // ---------------------------------------------------------------- what the limit means

  ghost predicate Sorted(s: seq<int>) {
    forall i, j :: 0 <= i < j < |s| ==> s[i] <= s[j]
  }

  lemma {:induction false} SuffixIsRecent(s: seq<int>, start: int, k: nat)
    requires k <= |s| && (forall i :: 0 <= i < |s| ==> (s[i] > start <==> k <= i))
    ensures Recent(s, start) == s[k..]
  {
    if s != [] {
      var init := s[..|s| - 1];
      if k < |s| {
        SuffixIsRecent(init, start, k);
        assert s[k..] == init[k..] + [s[|s| - 1]];
      } else {
        SuffixIsRecent(init, start, k - 1);
      }
    }
  }

  /** In a log in time order the recent calls are its last ones. */
  lemma RecentIsSuffix(s: seq<int>, start: int) returns (k: nat)
    requires Sorted(s)
    ensures k <= |s| && Recent(s, start) == s[k..]
    ensures forall i :: 0 <= i < |s| ==> (s[i] > start <==> k <= i)
  {
    k := 0;
    while k < |s| && s[k] <= start
      invariant k <= |s| && forall i :: 0 <= i < k ==> s[i] <= start
    {
      k := k + 1;
    }
    SuffixIsRecent(s, start, k);
  }

  /** Any `limit + 1` consecutive admitted calls span at least a whole window. */
  ghost predicate Spread(s: seq<int>, rule: Rule) {
    && (rule.limit <= 0 ==> s == [])
    && forall i, j :: 0 <= i < j < |s| && j == i + rule.limit ==> s[j] >= s[i] + rule.windowMs
  }

  ghost predicate UpTo(s: seq<int>, now: int) {
    forall i :: 0 <= i < |s| ==> s[i] <= now
  }

  lemma AdmittedSpreads(s: seq<int>, rule: Rule, now: int)
    requires Sorted(s) && UpTo(s, now) && Spread(s, rule) && |Recent(s, now - rule.windowMs)| < rule.limit
    ensures Sorted(s + [now]) && UpTo(s + [now], now) && Spread(s + [now], rule)
  {
    var from := RecentIsSuffix(s, now - rule.windowMs);
    forall i, j | 0 <= i < j < |s + [now]| && j == i + rule.limit
      ensures (s + [now])[j] >= (s + [now])[i] + rule.windowMs
    {
      if j < |s| {
        assert s[j] >= s[i] + rule.windowMs;
      } else {
        assert i < from;
      }
    }
  }

  lemma ReferenceKeepsOk(log: Log, rules: Rules, now: int, key: Key, k: Key)
    requires KeyOk(log, rules, now, k)
    ensures KeyOk(Reference(log, key, rules(key), now).0, rules, now, k)
  {
    if k == key && |Recent(Get(log, key), now - rules(key).windowMs)| < rules(key).limit {
      AdmittedSpreads(Get(log, key), rules(key), now);
      assert Get(Reference(log, key, rules(key), now).0, k) == Get(log, k) + [now];
    } else {
      assert Get(Reference(log, key, rules(key), now).0, k) == Get(log, k);
    }
  }

  /** Every key's admitted calls, over a whole run. */
  ghost predicate LogOk(log: Log, rules: Rules, now: int) {
    forall key :: KeyOk(log, rules, now, key)
  }

  ghost predicate KeyOk(log: Log, rules: Rules, now: int, key: Key) {
    && Sorted(Get(log, key))
    && UpTo(Get(log, key), now)
    && Spread(Get(log, key), rules(key))
  }

  lemma {:induction false} RunLogOk(ops: seq<Op>, rules: Rules, now: int)
    requires InOrder(ops) && (ops != [] ==> ops[|ops| - 1].now <= now)
    ensures LogOk(After(ops, rules).log, rules, now)
  {
    if ops != [] {
      var init, last := ops[..|ops| - 1], ops[|ops| - 1];
      RunLogOk(init, rules, last.now);
      var s := After(init, rules);
      forall k
        ensures KeyOk(After(ops, rules).log, rules, now, k)
      {
        assert KeyOk(s.log, rules, last.now, k);
        if last.Checks? {
          ReferenceKeepsOk(s.log, rules, last.now, last.key, k);
        }
      }
    }
  }

  lemma AtMostLimit(s: seq<int>, rule: Rule, now: int, a: nat)
    requires UpTo(s, now) && Spread(s, rule) && a < |s| && rule.limit >= 1
    ensures |s| <= a + rule.limit || s[a] <= now - rule.windowMs
  {
    if |s| > a + rule.limit {
      assert s[a + rule.limit] >= s[a] + rule.windowMs;
    }
  }

  /** The recent calls of a full window: exactly `limit` of them, the oldest leaving first. */
  lemma RefusalEnds(s: seq<int>, rule: Rule, now: int, later: int)
    requires Sorted(s) && UpTo(s, now) && Spread(s, rule) && rule.limit >= 1 && now <= later
    requires |Recent(s, now - rule.windowMs)| >= rule.limit
    ensures var oldest := Recent(s, now - rule.windowMs)[0];
            && oldest + rule.windowMs > now
            && (|Recent(s, later - rule.windowMs)| >= rule.limit <==> later < oldest + rule.windowMs)
  {
    var a := RecentIsSuffix(s, now - rule.windowMs);
    var b := RecentIsSuffix(s, later - rule.windowMs);
    assert Recent(s, now - rule.windowMs)[0] == s[a];
    AtMostLimit(s, rule, now, a);
    assert s[a] > later - rule.windowMs <==> b <= a;
  }

  /** The limiter that forgets nothing refuses until the announced reset time, and admits from it on. */
  lemma ReferenceRefusesUntilReset(log: Log, rules: Rules, now: int, key: Key, later: int)
    requires KeyOk(log, rules, now, key) && rules(key).limit >= 1 && now <= later
    requires !Reference(log, key, rules(key), now).1.allowed
    ensures var r := Reference(log, key, rules(key), now).1;
            && r.resetAt.Some? && r.resetAt.value > now
            && (Reference(log, key, rules(key), later).1.allowed <==> later >= r.resetAt.value)
  {
    RefusalEnds(Get(log, key), rules(key), now, later);
  }

  // ---------------------------------------------------------------- what the limit means for the limiter itself

  /** The limiter's answer to a call made after a run. */
  function AnswerTo(ops: seq<Op>, key: Key, now: int, rules: Rules): Result {
    Checked(After(ops, rules).hits, key, rules(key), now).1
  }

  /** It is the answer that the run extended by the call appends to its answers. */
  lemma AnswerIsNext(ops: seq<Op>, key: Key, now: int, rules: Rules)
    ensures After(ops + [Checks(key, now)], rules).answers
         == After(ops, rules).answers + [AnswerTo(ops, key, now, rules)]
  {
    AfterStep(ops, Checks(key, now), rules);
  }

  /** The times of the calls of a key that the limiter admitted in a run. */
  function Admitted(ops: seq<Op>, key: Key, rules: Rules): seq<int> {
    if ops == [] then []
    else
      var init, last := ops[..|ops| - 1], ops[|ops| - 1];
      Admitted(init, key, rules)
      + if last.Checks? && last.key == key && AnswerTo(init, key, last.now, rules).allowed then [last.now] else []
  }

  lemma AdmittedStep(ops: seq<Op>, op: Op, key: Key, rules: Rules)
    ensures Admitted(ops + [op], key, rules) == Admitted(ops, key, rules)
      + if op.Checks? && op.key == key && AnswerTo(ops, key, op.now, rules).allowed then [op.now] else []
  {
    assert (ops + [op])[..|ops|] == ops;
  }

  ghost predicate NotAfter(ops: seq<Op>, now: int) {
    ops != [] ==> ops[|ops| - 1].now <= now
  }

  /** A swept limiter answers as the one that forgets nothing. */
  lemma AnswersAlike(ops: seq<Op>, key: Key, now: int, rules: Rules)
    requires InOrder(ops) && NotAfter(ops, now) && WindowsSwept(rules)
    ensures AnswerTo(ops, key, now, rules) == Reference(After(ops, rules).log, key, rules(key), now).1
  {
    RunAgrees(ops, rules, now);
    CheckAgrees(After(ops, rules).hits, After(ops, rules).log, rules, now, key, now);
  }

  lemma LogStep(log: Log, key: Key, rule: Rule, now: int, other: Key)
    ensures var (log', r) := Reference(log, key, rule, now);
            Get(log', other) == Get(log, other) + if other == key && r.allowed then [now] else []
  {
  }

  lemma {:induction false} AdmittedIsLog(ops: seq<Op>, key: Key, rules: Rules)
    requires InOrder(ops) && WindowsSwept(rules)
    ensures Admitted(ops, key, rules) == Get(After(ops, rules).log, key)
  {
    if ops != [] {
      var init, last := ops[..|ops| - 1], ops[|ops| - 1];
      AdmittedIsLog(init, key, rules);
      if last.Checks? {
        AnswersAlike(init, last.key, last.now, rules);
        LogStep(After(init, rules).log, last.key, rules(last.key), last.now, key);
      }
    }
  }

  /** No `limit + 1` consecutive admitted calls of a key fit inside its window. */
  ghost predicate KeepsLimit(ops: seq<Op>, key: Key, rules: Rules) {
    Spread(Admitted(ops, key, rules), rules(key))
  }

  /** In every run of a limiter whose windows the sweep respects, admitted calls are spread as the rule says. */
  lemma AdmissionsAreSpread(ops: seq<Op>, rules: Rules, key: Key)
    requires InOrder(ops) && WindowsSwept(rules)
    ensures KeepsLimit(ops, key, rules)
  {
    var now := if ops == [] then 0 else ops[|ops| - 1].now;
    RunLogOk(ops, rules, now);
    assert KeyOk(After(ops, rules).log, rules, now, key);
    AdmittedIsLog(ops, key, rules);
  }

  /** A call is refused, nobody calls for that key meanwhile, and a later call follows. */
  ghost predicate RefusedThenCalls(ops: seq<Op>, key: Key, now: int, mid: seq<Op>, later: int, rules: Rules) {
    && InOrder(ops + [Checks(key, now)] + mid + [Checks(key, later)])
    && rules(key).limit >= 1 && !AnswerTo(ops, key, now, rules).allowed
    && forall i :: 0 <= i < |mid| ==> !(mid[i].Checks? && mid[i].key == key)
  }

  /** The later call is admitted exactly from the announced reset time on. */
  ghost predicate ResetHonoured(ops: seq<Op>, key: Key, now: int, mid: seq<Op>, later: int, rules: Rules) {
    var resetAt := AnswerTo(ops, key, now, rules).resetAt;
    && resetAt.Some?
    && (AnswerTo(ops + [Checks(key, now)] + mid, key, later, rules).allowed <==> later >= resetAt.value)
  }

  lemma {:induction false} LogKept(ops: seq<Op>, mid: seq<Op>, key: Key, rules: Rules)
    requires forall i :: 0 <= i < |mid| ==> !(mid[i].Checks? && mid[i].key == key)
    ensures Get(After(ops + mid, rules).log, key) == Get(After(ops, rules).log, key)
  {
    if mid == [] {
      assert ops + mid == ops;
    } else {
      var init, last := mid[..|mid| - 1], mid[|mid| - 1];
      LogKept(ops, init, key, rules);
      assert ops + mid == (ops + init) + [last];
      AfterStep(ops + init, last, rules);
      if last.Checks? {
        LogStep(After(ops + init, rules).log, last.key, rules(last.key), last.now, key);
      }
    }
  }

  lemma InOrderPrefix(a: seq<Op>, b: seq<Op>)
    requires InOrder(a + b)
    ensures InOrder(a) && forall i, j :: 0 <= i < |a| && 0 <= j < |b| ==> a[i].now <= b[j].now
  {
    assert forall i :: 0 <= i < |a| ==> (a + b)[i] == a[i];
    assert forall j :: 0 <= j < |b| ==> (a + b)[|a| + j] == b[j];
  }

  lemma RefusedLog(ops: seq<Op>, key: Key, now: int, mid: seq<Op>, rules: Rules)
    requires !Reference(After(ops, rules).log, key, rules(key), now).1.allowed
    requires forall i :: 0 <= i < |mid| ==> !(mid[i].Checks? && mid[i].key == key)
    ensures Get(After(ops + [Checks(key, now)] + mid, rules).log, key) == Get(After(ops, rules).log, key)
  {
    LogKept(ops + [Checks(key, now)], mid, key, rules);
    AfterStep(ops, Checks(key, now), rules);
    LogStep(After(ops, rules).log, key, rules(key), now, key);
  }

  /** A refused caller stays refused until the announced reset time, and is admitted from it on. */
  lemma RefusedUntilReset(ops: seq<Op>, key: Key, now: int, mid: seq<Op>, later: int, rules: Rules)
    requires WindowsSwept(rules) && RefusedThenCalls(ops, key, now, mid, later, rules)
    ensures ResetHonoured(ops, key, now, mid, later, rules)
  {
    var call, all := Checks(key, now), ops + [Checks(key, now)] + mid;
    InOrderPrefix(all, [Checks(key, later)]);
    InOrderPrefix(ops + [call], mid);
    InOrderPrefix(ops, [call]);
    assert all[|ops|] == call && call.now <= [Checks(key, later)][0].now;
    assert NotAfter(ops, [call][0].now) && NotAfter(all, [Checks(key, later)][0].now);
    AnswersAlike(ops, key, now, rules);
    AnswersAlike(all, key, later, rules);
    RefusedLog(ops, key, now, mid, rules);
    RunLogOk(ops, rules, now);
    assert KeyOk(After(ops, rules).log, rules, now, key);
    ReferenceRefusesUntilReset(After(ops, rules).log, rules, now, key, later);
  }

  // ---------------------------------------------------------------- and when it fails

  function Zeros(n: nat): seq<int> {
    seq(n, _ => 0)
  }

  /** `n` calls for a key at time 0. */
  function Burst(key: Key, n: nat): seq<Op> {
    seq(n, _ => Checks(key, 0))
  }

  lemma {:induction false} RecentZeros(n: nat, start: int)
    ensures Recent(Zeros(n), start) == if start < 0 then Zeros(n) else []
  {
    if n > 0 {
      assert Zeros(n)[..n - 1] == Zeros(n - 1);
      RecentZeros(n - 1, start);
    }
  }

  lemma CheckedFull(hits: Log, key: Key, rule: Rule, n: nat)
    requires Get(hits, key) == Zeros(n) && rule.windowMs > 0 && n <= rule.limit
    ensures var (hits', r) := Checked(hits, key, rule, 0);
            && (r.allowed <==> n < rule.limit)
            && (n < rule.limit ==> Get(hits', key) == Zeros(n + 1))
            && (n == rule.limit ==> Get(hits', key) == Zeros(n))
            && (1 <= n == rule.limit ==> r.resetAt == Some(rule.windowMs))
  {
    RecentZeros(n, 0 - rule.windowMs);
    assert Zeros(n) + [0] == Zeros(n + 1);
  }

  lemma {:induction false} BurstAdmitted(key: Key, n: nat, rules: Rules)
    requires rules(key).windowMs > 0 && n <= rules(key).limit
    ensures Get(After(Burst(key, n), rules).hits, key) == Zeros(n) == Admitted(Burst(key, n), key, rules)
  {
    if n > 0 {
      var init := Burst(key, n - 1);
      BurstAdmitted(key, n - 1, rules);
      assert Burst(key, n) == init + [Checks(key, 0)];
      AfterStep(init, Checks(key, 0), rules);
      AdmittedStep(init, Checks(key, 0), key, rules);
      CheckedFull(After(init, rules).hits, key, rules(key), n - 1);
      assert Zeros(n - 1) + [0] == Zeros(n);
    }
  }

  lemma SweptAfterBurst(hits: Log, key: Key, n: nat)
    requires Get(hits, key) == Zeros(n)
    ensures Get(Swept(hits, SWEEP_MS), key) == []
  {
    RecentZeros(n, 0);
  }

  /** After a burst that fills the limit, a sweep an hour later makes room again, whatever is left of the window. */
  lemma SweepAdmitsEarly(ops: seq<Op>, key: Key, n: nat, rules: Rules)
    requires Get(After(ops, rules).hits, key) == Zeros(n) && rules(key).limit >= 1
    ensures AnswerTo(ops + [Sweeps(SWEEP_MS)], key, SWEEP_MS, rules).allowed
  {
    AfterStep(ops, Sweeps(SWEEP_MS), rules);
    SweptAfterBurst(After(ops, rules).hits, key, n);
  }

  lemma EarlyTimes(rules: Rules, key: Key)
    requires rules(key).windowMs > SWEEP_MS && rules(key).limit >= 1
    ensures Admitted(Burst(key, rules(key).limit) + [Sweeps(SWEEP_MS)] + [Checks(key, SWEEP_MS)], key, rules)
         == Zeros(rules(key).limit) + [SWEEP_MS]
  {
    var n := rules(key).limit;
    var burst := Burst(key, n);
    BurstAdmitted(key, n, rules);
    AdmittedStep(burst, Sweeps(SWEEP_MS), key, rules);
    AdmittedStep(burst + [Sweeps(SWEEP_MS)], Checks(key, SWEEP_MS), key, rules);
    SweepAdmitsEarly(burst, key, n, rules);
  }

  lemma EarlyNotSpread(rule: Rule)
    requires rule.windowMs > SWEEP_MS && rule.limit >= 1
    ensures !Spread(Zeros(rule.limit) + [SWEEP_MS], rule)
  {
    var times := Zeros(rule.limit) + [SWEEP_MS];
    assert times[0] == 0 && times[rule.limit] == SWEEP_MS;
  }

  lemma EarlyInOrder(key: Key, n: nat, mid: seq<Op>)
    requires forall i :: 0 <= i < |mid| ==> mid[i].now == 0
    ensures InOrder(Burst(key, n) + mid + [Sweeps(SWEEP_MS)] + [Checks(key, SWEEP_MS)])
  {
    var ops := Burst(key, n) + mid + [Sweeps(SWEEP_MS)] + [Checks(key, SWEEP_MS)];
    assert forall i :: 0 <= i < |ops| ==> ops[i].now == if i < n + |mid| then 0 else SWEEP_MS;
  }

  /** With a longer window, limit + 1 calls are admitted within an hour. */
  lemma LimitBroken(rules: Rules, key: Key)
    requires rules(key).windowMs > SWEEP_MS && rules(key).limit >= 1
    ensures var ops := Burst(key, rules(key).limit) + [Sweeps(SWEEP_MS)] + [Checks(key, SWEEP_MS)];
            InOrder(ops) && !KeepsLimit(ops, key, rules)
  {
    EarlyTimes(rules, key);
    EarlyNotSpread(rules(key));
    EarlyInOrder(key, rules(key).limit, []);
    assert Burst(key, rules(key).limit) + [] == Burst(key, rules(key).limit);
  }

  /** The limit holds in every run exactly when no admitting key's window is longer than the sweep's hour. */
  lemma LimitKeptIff(rules: Rules)
    ensures WindowsSwept(rules) <==> forall ops, key :: InOrder(ops) ==> KeepsLimit(ops, key, rules)
  {
    if WindowsSwept(rules) {
      forall ops, key | InOrder(ops)
        ensures KeepsLimit(ops, key, rules)
      {
        AdmissionsAreSpread(ops, rules, key);
      }
    } else {
      var key :| rules(key).windowMs > SWEEP_MS && rules(key).limit > 0;
      LimitBroken(rules, key);
    }
  }

  /** A full key is refused, and told to wait for its whole window. */
  lemma BurstRefuses(rules: Rules, key: Key)
    requires rules(key).windowMs > 0 && rules(key).limit >= 1
    ensures var ops := Burst(key, rules(key).limit);
            && !AnswerTo(ops, key, 0, rules).allowed
            && AnswerTo(ops, key, 0, rules).resetAt == Some(rules(key).windowMs)
            && Get(After(ops + [Checks(key, 0)], rules).hits, key) == Zeros(rules(key).limit)
  {
    var n := rules(key).limit;
    BurstAdmitted(key, n, rules);
    CheckedFull(After(Burst(key, n), rules).hits, key, rules(key), n);
    AfterStep(Burst(key, n), Checks(key, 0), rules);
  }

  /** With a longer window, a refused caller is admitted before the announced reset time. */
  lemma ResetBroken(rules: Rules, key: Key)
    requires rules(key).windowMs > SWEEP_MS && rules(key).limit >= 1
    ensures var ops, mid := Burst(key, rules(key).limit), [Sweeps(SWEEP_MS)];
            && RefusedThenCalls(ops, key, 0, mid, SWEEP_MS, rules)
            && !ResetHonoured(ops, key, 0, mid, SWEEP_MS, rules)
  {
    BurstRefuses(rules, key);
    EarlyInOrder(key, rules(key).limit, [Checks(key, 0)]);
    SweepAdmitsEarly(Burst(key, rules(key).limit) + [Checks(key, 0)], key, rules(key).limit, rules);
  }

  /** Announced reset times are honoured in every run exactly under the same condition. */
  lemma ResetHonouredIff(rules: Rules)
    ensures WindowsSwept(rules) <==>
      forall ops, key, now, mid, later :: RefusedThenCalls(ops, key, now, mid, later, rules) ==>
        ResetHonoured(ops, key, now, mid, later, rules)
  {
    if WindowsSwept(rules) {
      forall ops, key, now, mid, later | RefusedThenCalls(ops, key, now, mid, later, rules)
        ensures ResetHonoured(ops, key, now, mid, later, rules)
      {
        RefusedUntilReset(ops, key, now, mid, later, rules);
      }
    } else {
      var key :| rules(key).windowMs > SWEEP_MS && rules(key).limit > 0;
      ResetBroken(rules, key);
    }
  }

  // ---------------------------------------------------------------- what an answer promises

  /** The calls still counted at a time. */
  function Load(hits: Log, key: Key, rule: Rule, now: int): seq<int> {
    Recent(Get(hits, key), now - rule.windowMs)
  }

  lemma LoadAfterCheck(hits: Log, key: Key, rule: Rule, now: int)
    requires rule.windowMs >= 1
    ensures Load(Checked(hits, key, rule, now).0, key, rule, now)
         == Load(hits, key, rule, now) + if |Load(hits, key, rule, now)| >= rule.limit then [] else [now]
  {
    var existing, start := Load(hits, key, rule, now), now - rule.windowMs;
    RecentRecent(Get(hits, key), start, start);
    RecentAppend(existing, now, start);
  }

  function Calls(key: Key, now: int, n: nat): seq<Op> {
    seq(n, _ => Checks(key, now))
  }

  function LoadOf(ops: seq<Op>, key: Key, now: int, rules: Rules): nat {
    |Load(After(ops, rules).hits, key, rules(key), now)|
  }

  lemma LoadStep(ops: seq<Op>, key: Key, now: int, rules: Rules)
    requires rules(key).windowMs >= 1
    ensures LoadOf(ops + [Checks(key, now)], key, now, rules)
         == LoadOf(ops, key, now, rules) + if LoadOf(ops, key, now, rules) >= rules(key).limit then 0 else 1
  {
    AfterStep(ops, Checks(key, now), rules);
    LoadAfterCheck(After(ops, rules).hits, key, rules(key), now);
  }

  function Filled(load: nat, n: nat, limit: int): int {
    if load >= limit then load else if load + n <= limit then load + n else limit
  }

  lemma {:induction false} LoadAfterCalls(ops: seq<Op>, key: Key, now: int, n: nat, rules: Rules)
    requires rules(key).windowMs >= 1
    ensures LoadOf(ops + Calls(key, now, n), key, now, rules)
         == Filled(LoadOf(ops, key, now, rules), n, rules(key).limit)
  {
    if n == 0 {
      assert ops + Calls(key, now, 0) == ops;
    } else {
      var init := ops + Calls(key, now, n - 1);
      LoadAfterCalls(ops, key, now, n - 1, rules);
      assert ops + Calls(key, now, n) == init + [Checks(key, now)];
      LoadStep(init, key, now, rules);
    }
  }

  /** The remaining count is honest: exactly so many further calls made at once are admitted, in any state. */
  lemma RemainingIsExact(ops: seq<Op>, key: Key, now: int, m: nat, rules: Rules)
    requires rules(key).windowMs >= 1
    ensures AnswerTo(ops + Calls(key, now, m + 1), key, now, rules).allowed <==>
      m < AnswerTo(ops, key, now, rules).remaining
  {
    LoadAfterCalls(ops, key, now, m + 1, rules);
    var load := LoadOf(ops, key, now, rules);
    assert AnswerTo(ops, key, now, rules).remaining
        == if load >= rules(key).limit then 0 else rules(key).limit - load - 1;
  }

  lemma {:induction false} NoneRecent(s: seq<int>, start: int)
    requires UpTo(s, start)
    ensures Recent(s, start) == []
  {
    if s != [] {
      NoneRecent(s[..|s| - 1], start);
    }
  }

  lemma {:induction false} RecentUpTo(s: seq<int>, start: int, now: int)
    requires UpTo(s, now)
    ensures UpTo(Recent(s, start), now)
  {
    if s != [] {
      RecentUpTo(s[..|s| - 1], start, now);
    }
  }

  /** The reset time of an admitted call is when its window is empty again, no other call of the key intervening. */
  lemma AdmittedReset(hits: Log, key: Key, rule: Rule, now: int, later: int)
    requires UpTo(Get(hits, key), now) && now <= later && Checked(hits, key, rule, now).1.allowed
    ensures var (after, r) := Checked(hits, key, rule, now);
            r.resetAt.Some? && (Load(after, key, rule, later) == [] <==> later >= r.resetAt.value)
  {
    var existing, start := Load(hits, key, rule, now), later - rule.windowMs;
    RecentAppend(existing, now, start);
    if later >= now + rule.windowMs {
      RecentUpTo(Get(hits, key), now - rule.windowMs, now);
      NoneRecent(existing, start);
    }
  }
}
