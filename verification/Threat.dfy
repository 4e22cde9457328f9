/**
 Threat correlation (services/threat-engine/correlator.ts, threat-signal-store.ts and engine.ts): signals accumulate per
 node in a sliding window that is pruned as it is read, each batch is scored, and the score decides what is done to the
 node. Arithmetic is over the reals.
 */
module Threat {
  import opened Wrappers

  datatype Signal = Signal(node: Option<string>, confidence: real, weight: real, at: int)

  datatype Severity = INFO | WARN | CRITICAL | EMERGENCY

  datatype Action =
    | Reauthenticate(node: string)
    | TerminateJit(node: string)
    | Isolate(node: string)
    | RevokeCertificates(node: string)
    | RotateIdentity(node: string)

  datatype Evaluation = Evaluation(score: int, severity: Severity, contained: bool, actions: seq<Action>)

  // ---------------------------------------------------------------- scoring

  function Clamp(c: real): real { if c < 0.0 then 0.0 else if c > 1.0 then 1.0 else c }

  function Contribution(s: Signal): real { Clamp(s.confidence) * if s.weight < 0.0 then 0.0 else s.weight }

  function Raw(signals: seq<Signal>): real {
    if signals == [] then 0.0 else Raw(signals[..|signals| - 1]) + Contribution(signals[|signals| - 1])
  }

  /** Rounds to the nearest integer, halves up. */
  function Round(x: real): int { (x + 0.5).Floor }

  function Score(signals: seq<Signal>): int {
    if Round(Raw(signals)) < 100 then Round(Raw(signals)) else 100
  }

  function SeverityOf(score: int): Severity {
    if score >= 85 then EMERGENCY else if score >= 65 then CRITICAL else if score >= 35 then WARN else INFO
  }

  predicate Named(s: Signal) {
    s.node.Some? && s.node.value != ""
  }

  /** The node of the first signal that names one. */
  function NodeOf(signals: seq<Signal>): Option<string> {
    if signals == [] then None
    else if Named(signals[0]) then signals[0].node
    else NodeOf(signals[1..])
  }

  function ActionsFor(node: Option<string>, severity: Severity): seq<Action> {
    if node.None? then []
    else
      var n := node.value;
      match severity
      case INFO => []
      case WARN => [Reauthenticate(n)]
      case CRITICAL => [TerminateJit(n), Isolate(n)]
      case EMERGENCY => [TerminateJit(n), Isolate(n), RevokeCertificates(n), RotateIdentity(n)]
  }

  function Evaluate(signals: seq<Signal>): Evaluation {
    var score, node := Score(signals), NodeOf(signals);
    Evaluation(score, SeverityOf(score), node.Some? && score >= 65, ActionsFor(node, SeverityOf(score)))
  }

  // ---------------------------------------------------------------- what the score means

  lemma ContributionNonNegative(s: Signal)
    ensures Contribution(s) >= 0.0
  {
    var c, w := Clamp(s.confidence), if s.weight < 0.0 then 0.0 else s.weight;
    assert c * w >= 0.0;
  }

  lemma RoundMonotone(x: real, y: real)
    requires x <= y
    ensures Round(x) <= Round(y)
  {
  }

  lemma {:induction false} RawNonNegative(signals: seq<Signal>)
    ensures Raw(signals) >= 0.0
  {
    if signals != [] {
      RawNonNegative(signals[..|signals| - 1]);
      ContributionNonNegative(signals[|signals| - 1]);
    }
  }

  lemma ScoreInRange(signals: seq<Signal>)
    ensures 0 <= Score(signals) <= 100
  {
    RawNonNegative(signals);
    RoundMonotone(0.0, Raw(signals));
  }

  lemma RawAppend(signals: seq<Signal>, s: Signal)
    ensures Raw(signals + [s]) == Raw(signals) + Contribution(s)
  {
    assert (signals + [s])[..|signals|] == signals;
  }

  lemma {:induction false} RawWithout(signals: seq<Signal>, i: nat)
    requires i < |signals|
    ensures Raw(signals) == Raw(signals[..i] + signals[i + 1..]) + Contribution(signals[i])
    decreases |signals|
  {
    var init, last := signals[..|signals| - 1], signals[|signals| - 1];
    if i < |init| {
      RawWithout(init, i);
      assert signals[..i] + signals[i + 1..] == (init[..i] + init[i + 1..]) + [last];
      RawAppend(init[..i] + init[i + 1..], last);
    } else {
      assert signals[..i] + signals[i + 1..] == init;
    }
  }

  lemma RemoveAt(b: seq<Signal>, i: nat)
    requires i < |b|
    ensures multiset(b[..i] + b[i + 1..]) == multiset(b) - multiset{b[i]}
  {
    assert b == b[..i] + [b[i]] + b[i + 1..];
  }

  /** The order in which signals arrived does not matter. */
  lemma {:induction false} RawOfMultiset(a: seq<Signal>, b: seq<Signal>)
    requires multiset(a) == multiset(b)
    ensures Raw(a) == Raw(b)
  {
    if a == [] {
      assert |multiset(b)| == 0;
    } else {
      var n := |a| - 1;
      assert a[n] in multiset(b);
      var i :| 0 <= i < |b| && b[i] == a[n];
      RemoveAt(a, n);
      RemoveAt(b, i);
      assert a[..n] + a[n + 1..] == a[..n];
      RawOfMultiset(a[..n], b[..i] + b[i + 1..]);
      RawWithout(b, i);
    }
  }

  lemma ScoreIgnoresOrder(a: seq<Signal>, b: seq<Signal>)
    requires multiset(a) == multiset(b)
    ensures Score(a) == Score(b)
  {
    RawOfMultiset(a, b);
  }

  function Rank(s: Severity): int {
    match s
    case INFO => 0
    case WARN => 1
    case CRITICAL => 2
    case EMERGENCY => 3
  }

  /** More evidence never lowers the score or the severity. */
  lemma {:induction false} MoreSignalsMoreSevere(a: seq<Signal>, b: seq<Signal>)
    ensures Score(a) <= Score(a + b)
    ensures Rank(SeverityOf(Score(a))) <= Rank(SeverityOf(Score(a + b)))
  {
    if b == [] {
      assert a + b == a;
    } else {
      var init, last := b[..|b| - 1], b[|b| - 1];
      MoreSignalsMoreSevere(a, init);
      assert a + b == (a + init) + [last];
      RawAppend(a + init, last);
      ContributionNonNegative(last);
      RoundMonotone(Raw(a + init), Raw(a + b));
    }
  }

  // ---------------------------------------------------------------- what one signal is worth

  lemma {:induction false} RawConcat(a: seq<Signal>, b: seq<Signal>)
    ensures Raw(a + b) == Raw(a) + Raw(b)
  {
    if b == [] {
      assert a + b == a;
    } else {
      RawConcat(a, b[..|b| - 1]);
      assert a + b == (a + b[..|b| - 1]) + [b[|b| - 1]];
      RawAppend(a + b[..|b| - 1], b[|b| - 1]);
    }
  }

  lemma RawAmong(a: seq<Signal>, s: Signal, b: seq<Signal>)
    ensures Raw(a + [s] + b) == Raw(a) + Contribution(s) + Raw(b)
  {
    RawConcat(a + [s], b);
    RawAppend(a, s);
  }

  /** A signal without confidence or without weight changes no score, wherever it arrives. */
  lemma WorthlessSignal(a: seq<Signal>, s: Signal, b: seq<Signal>)
    requires s.confidence <= 0.0 || s.weight <= 0.0
    ensures Score(a + [s] + b) == Score(a + b)
  {
    RawAmong(a, s, b);
    RawConcat(a, b);
  }

  /** Confidence above 1 counts as 1. */
  lemma ConfidenceSaturates(a: seq<Signal>, s: Signal, b: seq<Signal>)
    requires s.confidence >= 1.0
    ensures Score(a + [s] + b) == Score(a + [s.(confidence := 1.0)] + b)
  {
    RawAmong(a, s, b);
    RawAmong(a, s.(confidence := 1.0), b);
  }

  lemma ProductMonotone(c: real, d: real, v: real, w: real)
    requires 0.0 <= c <= d && 0.0 <= v <= w
    ensures c * v <= d * w
  {
    assert (d - c) * v >= 0.0 && d * (w - v) >= 0.0;
  }

  lemma ContributionMonotone(s: Signal, t: Signal)
    requires s.confidence <= t.confidence && s.weight <= t.weight
    ensures Contribution(s) <= Contribution(t)
  {
    ProductMonotone(Clamp(s.confidence), Clamp(t.confidence), if s.weight < 0.0 then 0.0 else s.weight,
                    if t.weight < 0.0 then 0.0 else t.weight);
  }

  /** A more confident or weightier signal never lowers the score. */
  lemma ScoreMonotone(a: seq<Signal>, s: Signal, t: Signal, b: seq<Signal>)
    requires s.confidence <= t.confidence && s.weight <= t.weight
    ensures Score(a + [s] + b) <= Score(a + [t] + b)
  {
    var low, high := Raw(a) + Contribution(s) + Raw(b), Raw(a) + Contribution(t) + Raw(b);
    assert low <= high by { ContributionMonotone(s, t); }
    RawAmong(a, s, b);
    RawAmong(a, t, b);
    RoundMonotone(Raw(a + [s] + b), Raw(a + [t] + b));
  }

  ghost predicate Proper(signals: seq<Signal>) {
    forall i :: 0 <= i < |signals| ==> 0.0 <= signals[i].confidence <= 1.0 && signals[i].weight >= 0.0
  }

  /** The weights, each scaled by its confidence, added up. */
  function Evidence(signals: seq<Signal>): real {
    if signals == [] then 0.0 else signals[0].confidence * signals[0].weight + Evidence(signals[1..])
  }

  lemma {:induction false} RawIsEvidence(signals: seq<Signal>)
    requires Proper(signals)
    ensures Raw(signals) == Evidence(signals)
  {
    if signals != [] {
      assert signals == [signals[0]] + signals[1..];
      RawConcat([signals[0]], signals[1..]);
      RawAppend([], signals[0]);
      assert [] + [signals[0]] == [signals[0]];
      assert Raw([]) == 0.0;
      RawIsEvidence(signals[1..]);
    }
  }

  /** The score is the evidence rounded to the nearest integer, halves up, and 100 from 99.5 on. */
  lemma ScoreIsEvidence(signals: seq<Signal>)
    requires Proper(signals)
    ensures var score, x := Score(signals) as real, Evidence(signals);
            if x >= 99.5 then score == 100.0 else score - 0.5 <= x < score + 0.5
  {
    RawIsEvidence(signals);
  }

  lemma {:induction false} EvidenceOfEqual(signals: seq<Signal>, c: real, w: real)
    requires forall i :: 0 <= i < |signals| ==> signals[i].confidence == c && signals[i].weight == w
    ensures Evidence(signals) == |signals| as real * c * w
  {
    if signals != [] {
      EvidenceOfEqual(signals[1..], c, w);
      Distribute(|signals[1..]| as real, c, w);
    }
  }

  lemma Distribute(n: real, c: real, w: real)
    ensures (n + 1.0) * c * w == n * c * w + c * w
  {
    assert (n + 1.0) * c == n * c + c;
  }

  /** n alike signals of confidence c and weight w score n * c * w, rounded halves up and capped at 100. */
  lemma AlikeSignalsScore(signals: seq<Signal>, c: real, w: real)
    requires 0.0 <= c <= 1.0 && w >= 0.0
    requires forall i :: 0 <= i < |signals| ==> signals[i].confidence == c && signals[i].weight == w
    ensures var score, x := Score(signals) as real, |signals| as real * c * w;
            if x >= 99.5 then score == 100.0 else score - 0.5 <= x < score + 0.5
  {
    EvidenceOfEqual(signals, c, w);
    ScoreIsEvidence(signals);
  }

  // ---------------------------------------------------------------- what is done, and to whom

  /** The first signal that names a node names this one. */
  ghost predicate FirstNames(signals: seq<Signal>, n: string, i: nat) {
    && i < |signals| && signals[i].node == Some(n) && n != ""
    && forall j :: 0 <= j < i ==> signals[j].node in {None, Some("")}
  }

  lemma {:induction false} NodeOfIsFirst(signals: seq<Signal>, n: string)
    ensures NodeOf(signals) == Some(n) <==> exists i: nat :: FirstNames(signals, n, i)
  {
    if signals != [] {
      NodeOfIsFirst(signals[1..], n);
      if exists i: nat :: FirstNames(signals, n, i) {
        var i: nat :| FirstNames(signals, n, i);
        assert i > 0 ==> FirstNames(signals[1..], n, i - 1);
        assert i > 0 ==> signals[0].node in {None, Some("")};
      }
      if exists i: nat :: FirstNames(signals[1..], n, i) {
        var i: nat :| FirstNames(signals[1..], n, i);
        assert !Named(signals[0]) ==> FirstNames(signals, n, i + 1);
      }
      assert Named(signals[0]) && signals[0].node == Some(n) ==> FirstNames(signals, n, 0);
    }
  }

  /** Which containment step is taken, for whom, and from which score on. */
  lemma ActionsByScore(signals: seq<Signal>, n: string)
    ensures var e, named := Evaluate(signals), exists i: nat :: FirstNames(signals, n, i);
            && (e.contained <==> exists m :: Isolate(m) in e.actions)
            && (Reauthenticate(n) in e.actions <==> named && 35 <= e.score < 65)
            && (TerminateJit(n) in e.actions <==> named && e.score >= 65)
            && (Isolate(n) in e.actions <==> named && e.score >= 65)
            && (RevokeCertificates(n) in e.actions <==> named && e.score >= 85)
            && (RotateIdentity(n) in e.actions <==> named && e.score >= 85)
  {
    var e := Evaluate(signals);
    assert e.actions == ActionsFor(NodeOf(signals), e.severity);
    assert e.contained ==> Isolate(NodeOf(signals).value) in e.actions;
    NodeOfIsFirst(signals, n);
  }

  lemma {:induction false} NodeOfPrefix(a: seq<Signal>, b: seq<Signal>)
    requires NodeOf(a).Some?
    ensures NodeOf(a + b) == NodeOf(a)
  {
    assert (a + b)[0] == a[0];
    if !Named(a[0]) {
      assert (a + b)[1..] == a[1..] + b;
      NodeOfPrefix(a[1..], b);
    }
  }

  predicate Contains(action: Action) {
    action.TerminateJit? || action.Isolate? || action.RevokeCertificates? || action.RotateIdentity?
  }

  /** More evidence never undoes containment: every such step is taken again, and a contained node is isolated again. */
  lemma ContainmentGrows(a: seq<Signal>, b: seq<Signal>, action: Action)
    requires Contains(action) && action in Evaluate(a).actions
    ensures action in Evaluate(a + b).actions
    ensures Evaluate(a).contained && Evaluate(a + b).contained && Isolate(action.node) in Evaluate(a + b).actions
  {
    ActionsByScore(a, action.node);
    ActionsByScore(a + b, action.node);
    NodeOfIsFirst(a, action.node);
    NodeOfIsFirst(a + b, action.node);
    NodeOfPrefix(a, b);
    MoreSignalsMoreSevere(a, b);
  }

  // ---------------------------------------------------------------- the sliding window

  const UNATTRIBUTED := "__unattributed__"

  datatype Key = Key(text: string)

  function KeyOf(s: Signal): Key {
    if s.node.Some? then Key(s.node.value) else Key(UNATTRIBUTED)
  }

  type Store = map<Key, seq<Signal>>

  function Get(store: Store, key: Key): seq<Signal> {
    if key in store then store[key] else []
  }

  /** The signals at or after a time, in order. */
  function Since(signals: seq<Signal>, t: int): seq<Signal> {
    if signals == [] then []
    else
      Since(signals[..|signals| - 1], t) + if signals[|signals| - 1].at >= t then [signals[|signals| - 1]] else []
  }

  /** Keeps and returns the signals in the window; a key without any is dropped. */
  function Pruned(store: Store, key: Key, t: int): Store {
    var kept := Since(Get(store, key), t);
    if kept != [] then store[key := kept] else store - {key}
  }

  function Ingested(store: Store, s: Signal, windowMs: int): Store {
    Pruned(store[KeyOf(s) := Get(store, KeyOf(s)) + [s]], KeyOf(s), s.at - windowMs)
  }

  class ThreatCorrelator {
    const windowMs: int
    var store: Store

    constructor (windowMs: int)
      ensures this.windowMs == windowMs && store == map[]
    {
      this.windowMs, store := windowMs, map[];
    }

    method Window(key: Key, t: int) returns (kept: seq<Signal>)
      modifies this
      ensures store == Pruned(old(store), key, t) && kept == Since(Get(old(store), key), t)
    {
      kept := Since(Get(store, key), t);
      if kept != [] {
        store := store[key := kept];
      } else {
        store := store - {key};
      }
    }

    method Ingest(s: Signal) returns (e: Evaluation)
      modifies this
      ensures store == Ingested(old(store), s, windowMs)
      ensures e == Evaluate(Since(Get(old(store), KeyOf(s)) + [s], s.at - windowMs))
    {
      var key := KeyOf(s);
      store := store[key := Get(store, key) + [s]];
      var kept := Window(key, s.at - windowMs);
      e := Evaluate(kept);
    }

    method Dismiss(node: string) returns (cleared: nat)
      modifies this
      ensures store == old(store) - {Key(node)} && cleared == |Get(old(store), Key(node))|
    {
      cleared := |Get(store, Key(node))|;
      store := store - {Key(node)};
    }

    method ActiveSignalCount(node: string, now: int) returns (count: nat)
      modifies this
      ensures store == Pruned(old(store), Key(node), now - windowMs)
      ensures count == |Since(Get(old(store), Key(node)), now - windowMs)|
    {
      var kept := Window(Key(node), now - windowMs);
      count := |kept|;
    }
  }

  // ---------------------------------------------------------------- pruning against a full history

  lemma SinceAppend(signals: seq<Signal>, s: Signal, t: int)
    ensures Since(signals + [s], t) == Since(signals, t) + if s.at >= t then [s] else []
  {
    assert (signals + [s])[..|signals|] == signals;
  }

  /** A signal recorded since its node's last dismissal, with the highest bound its window was pruned to since. */
  datatype Entry = Entry(signal: Signal, floor: int)

  type History = map<Key, seq<Entry>>

  function Entries(history: History, key: Key): seq<Entry> {
    if key in history then history[key] else []
  }

  function Signals(es: seq<Entry>): seq<Signal> {
    if es == [] then [] else Signals(es[..|es| - 1]) + [es[|es| - 1].signal]
  }

  function RaiseOne(e: Entry, t: int): Entry {
    if e.floor < t then e.(floor := t) else e
  }

  function Raise(es: seq<Entry>, t: int): (r: seq<Entry>)
    ensures |r| == |es|
  {
    if es == [] then [] else Raise(es[..|es| - 1], t) + [RaiseOne(es[|es| - 1], t)]
  }

  /** The signals that no pruning has dropped. */
  function Kept(es: seq<Entry>): seq<Signal> {
    if es == [] then []
    else Kept(es[..|es| - 1]) + if es[|es| - 1].floor <= es[|es| - 1].signal.at then [es[|es| - 1].signal] else []
  }

  datatype Op = Ingests(signal: Signal) | Dismisses(node: string) | Counts(node: string, now: int)

  datatype State = State(store: Store, history: History)

  function NextStore(store: Store, op: Op, windowMs: int): Store {
    match op
    case Ingests(x) => Ingested(store, x, windowMs)
    case Dismisses(node) => store - {Key(node)}
    case Counts(node, now) => Pruned(store, Key(node), now - windowMs)
  }

  function NextHistory(history: History, op: Op, windowMs: int): History {
    match op
    case Ingests(x) =>
      var t := x.at - windowMs;
      history[KeyOf(x) := Raise(Entries(history, KeyOf(x)) + [Entry(x, t)], t)]
    case Dismisses(node) => history - {Key(node)}
    case Counts(node, now) => history[Key(node) := Raise(Entries(history, Key(node)), now - windowMs)]
  }

  function Next(s: State, op: Op, windowMs: int): State {
    State(NextStore(s.store, op, windowMs), NextHistory(s.history, op, windowMs))
  }

  function After(ops: seq<Op>, windowMs: int): State {
    if ops == [] then State(map[], map[]) else Next(After(ops[..|ops| - 1], windowMs), ops[|ops| - 1], windowMs)
  }

  lemma {:induction false} SinceKept(es: seq<Entry>, t: int)
    ensures Since(Kept(es), t) == Kept(Raise(es, t))
  {
    if es != [] {
      var init, last := es[..|es| - 1], es[|es| - 1];
      SinceKept(init, t);
      assert Raise(es, t)[..|es| - 1] == Raise(init, t);
      if last.floor <= last.signal.at {
        SinceAppend(Kept(init), last.signal, t);
      } else {
        assert Kept(es) == Kept(init) && Kept(Raise(es, t)) == Kept(Raise(init, t));
      }
    }
  }

  lemma KeptAppend(es: seq<Entry>, x: Signal, t: int)
    ensures Since(Kept(es) + [x], t) == Kept(Raise(es + [Entry(x, t)], t))
  {
    SinceKept(es, t);
    SinceAppend(Kept(es), x, t);
    assert (es + [Entry(x, t)])[..|es|] == es;
    var raised := Raise(es + [Entry(x, t)], t);
    assert raised == Raise(es, t) + [Entry(x, t)];
    assert raised[..|Raise(es, t)|] == Raise(es, t);
  }

  /** The store holds exactly the signals no pruning dropped. */
  ghost predicate Mirrors(s: State) {
    forall key :: Mirrored(s, key)
  }

  predicate Mirrored(s: State, key: Key) {
    Get(s.store, key) == Kept(Entries(s.history, key))
  }

  lemma GetPruned(store: Store, key: Key, t: int, other: Key)
    ensures Get(Pruned(store, key, t), other) == if other == key then Since(Get(store, key), t) else Get(store, other)
  {
  }

  lemma GetIngested(store: Store, s: Signal, windowMs: int, other: Key)
    ensures Get(Ingested(store, s, windowMs), other)
         == if other == KeyOf(s) then Since(Get(store, KeyOf(s)) + [s], s.at - windowMs) else Get(store, other)
  {
  }

  lemma IngestRaises(history: History, x: Signal, windowMs: int, key: Key)
    ensures Entries(NextHistory(history, Ingests(x), windowMs), key)
         == if key == KeyOf(x) then Raise(Entries(history, key) + [Entry(x, x.at - windowMs)], x.at - windowMs)
            else Entries(history, key)
  {
  }

  lemma IngestMirrors(s: State, n: State, key: Key, own: bool, x: Signal, t: int)
    requires Mirrored(s, key)
    requires Get(n.store, key) == if own then Since(Get(s.store, key) + [x], t) else Get(s.store, key)
    requires Entries(n.history, key)
          == if own then Raise(Entries(s.history, key) + [Entry(x, t)], t) else Entries(s.history, key)
    ensures Mirrored(n, key)
  {
    if own {
      KeptAppend(Entries(s.history, key), x, t);
    }
  }

  lemma CountRaises(history: History, node: string, now: int, windowMs: int, key: Key)
    ensures Entries(NextHistory(history, Counts(node, now), windowMs), key)
         == if key == Key(node) then Raise(Entries(history, key), now - windowMs) else Entries(history, key)
  {
  }

  lemma PruneMirrors(s: State, n: State, key: Key, t: int)
    requires Mirrored(s, key)
    requires Get(n.store, key) == Since(Get(s.store, key), t)
    requires Entries(n.history, key) == Raise(Entries(s.history, key), t)
    ensures Mirrored(n, key)
  {
    SinceKept(Entries(s.history, key), t);
  }

  lemma CountMirrors(s: State, n: State, node: string, t: int, key: Key)
    requires Mirrored(s, key) && n.store == Pruned(s.store, Key(node), t)
    requires n.history == s.history[Key(node) := Raise(Entries(s.history, Key(node)), t)]
    ensures Mirrored(n, key)
  {
    GetPruned(s.store, Key(node), t, key);
    if key == Key(node) {
      PruneMirrors(s, n, key, t);
    }
  }

  lemma StepMirrors(s: State, op: Op, windowMs: int, key: Key)
    requires Mirrored(s, key)
    ensures Mirrored(Next(s, op, windowMs), key)
  {
    match op
    case Ingests(x) =>
      GetIngested(s.store, x, windowMs, key);
      IngestRaises(s.history, x, windowMs, key);
      IngestMirrors(s, Next(s, op, windowMs), key, key == KeyOf(x), x, x.at - windowMs);
    case Dismisses(node) =>
    case Counts(node, now) =>
      CountMirrors(s, Next(s, op, windowMs), node, now - windowMs, key);
  }

  lemma {:induction false} RunMirrors(ops: seq<Op>, windowMs: int)
    ensures Mirrors(After(ops, windowMs))
  {
    if ops != [] {
      RunMirrors(ops[..|ops| - 1], windowMs);
      forall key
        ensures Mirrored(After(ops, windowMs), key)
      {
        assert Mirrored(After(ops[..|ops| - 1], windowMs), key);
        StepMirrors(After(ops[..|ops| - 1], windowMs), ops[|ops| - 1], windowMs, key);
      }
    }
  }

  /** No signal inside the bound asked for was dropped by a higher bound asked for earlier. */
  ghost predicate NoneForgotten(es: seq<Entry>, t: int) {
    forall i :: 0 <= i < |es| ==> !(t <= es[i].signal.at < es[i].floor)
  }

  lemma {:induction false} CompleteIff(es: seq<Entry>, t: int)
    ensures |Since(Kept(es), t)| <= |Since(Signals(es), t)|
    ensures Since(Kept(es), t) == Since(Signals(es), t) <==> NoneForgotten(es, t)
    ensures |Since(Kept(es), t)| == |Since(Signals(es), t)| <==> NoneForgotten(es, t)
  {
    if es != [] {
      var init, last := es[..|es| - 1], es[|es| - 1];
      CompleteIff(init, t);
      SinceAppend(Signals(init), last.signal, t);
      if last.floor <= last.signal.at {
        SinceAppend(Kept(init), last.signal, t);
      } else {
        assert Kept(es) == Kept(init);
      }
      assert NoneForgotten(es, t) <==> NoneForgotten(init, t) && !(t <= last.signal.at < last.floor);
    }
  }

  /**
   After every run, whatever the order of its times: the signals reported for a bound are the full history since the
   node's last dismissal, from that bound on, exactly when no earlier, higher bound already dropped one of them.
   */
  lemma WindowCompleteIff(ops: seq<Op>, windowMs: int, key: Key, t: int)
    ensures var s := After(ops, windowMs);
            Since(Get(s.store, key), t) == Since(Signals(Entries(s.history, key)), t) <==>
            NoneForgotten(Entries(s.history, key), t)
  {
    RunMirrors(ops, windowMs);
    assert Mirrored(After(ops, windowMs), key);
    CompleteIff(Entries(After(ops, windowMs).history, key), t);
  }

  predicate Timed(op: Op) { !op.Dismisses? }

  function TimeOf(op: Op): int
    requires Timed(op)
  {
    if op.Ingests? then op.signal.at else op.now
  }

  /** No bound asked for so far exceeds `t`. */
  ghost predicate BoundsUpTo(ops: seq<Op>, windowMs: int, t: int) {
    forall i :: 0 <= i < |ops| && Timed(ops[i]) ==> TimeOf(ops[i]) - windowMs <= t
  }

  predicate FloorsUpTo(es: seq<Entry>, t: int) {
    forall i :: 0 <= i < |es| ==> es[i].floor <= t
  }

  lemma {:induction false} RaiseFloors(es: seq<Entry>, u: int, t: int)
    requires FloorsUpTo(es, t) && u <= t
    ensures FloorsUpTo(Raise(es, u), t)
  {
    if es != [] {
      RaiseFloors(es[..|es| - 1], u, t);
    }
  }

  lemma IngestFloors(es: seq<Entry>, x: Signal, u: int, t: int)
    requires FloorsUpTo(es, t) && u <= t
    ensures FloorsUpTo(Raise(es + [Entry(x, u)], u), t)
  {
    RaiseFloors(es + [Entry(x, u)], u, t);
  }

  lemma StepFloors(history: History, op: Op, windowMs: int, t: int, key: Key)
    requires FloorsUpTo(Entries(history, key), t) && (Timed(op) ==> TimeOf(op) - windowMs <= t)
    ensures FloorsUpTo(Entries(NextHistory(history, op, windowMs), key), t)
  {
    match op
    case Ingests(x) =>
      IngestFloors(Entries(history, key), x, x.at - windowMs, t);
      IngestRaises(history, x, windowMs, key);
    case Dismisses(_) =>
    case Counts(node, now) =>
      RaiseFloors(Entries(history, key), now - windowMs, t);
      CountRaises(history, node, now, windowMs, key);
  }

  lemma {:induction false} RunFloors(ops: seq<Op>, windowMs: int, t: int, key: Key)
    requires BoundsUpTo(ops, windowMs, t)
    ensures FloorsUpTo(Entries(After(ops, windowMs).history, key), t)
  {
    if ops != [] {
      var init := ops[..|ops| - 1];
      assert forall i :: 0 <= i < |init| ==> init[i] == ops[i];
      RunFloors(init, windowMs, t, key);
      StepFloors(After(init, windowMs).history, ops[|ops| - 1], windowMs, t, key);
    }
  }

  /** So for times in order pruning is unobservable: each report is that of the full history. */
  lemma PruningUnobservable(ops: seq<Op>, windowMs: int, key: Key, t: int)
    requires BoundsUpTo(ops, windowMs, t)
    ensures var s := After(ops, windowMs);
            Since(Get(s.store, key), t) == Since(Signals(Entries(s.history, key)), t)
  {
    RunFloors(ops, windowMs, t, key);
    WindowCompleteIff(ops, windowMs, key, t);
  }

  // ---------------------------------------------------------------- the window, from the calls alone

  /** The signals ingested under a key since it was last dismissed. */
  function Reported(ops: seq<Op>, key: Key): seq<Signal> {
    if ops == [] then []
    else
      var before := Reported(ops[..|ops| - 1], key);
      match ops[|ops| - 1]
      case Ingests(x) => if KeyOf(x) == key then before + [x] else before
      case Dismisses(node) => if Key(node) == key then [] else before
      case Counts(_, _) => before
  }

  lemma {:induction false} RaiseKeepsSignals(es: seq<Entry>, t: int)
    ensures Signals(Raise(es, t)) == Signals(es)
  {
    if es != [] {
      RaiseKeepsSignals(es[..|es| - 1], t);
      assert Raise(es, t)[..|es| - 1] == Raise(es[..|es| - 1], t);
    }
  }

  lemma AppendSignals(es: seq<Entry>, x: Signal, t: int)
    ensures Signals(Raise(es + [Entry(x, t)], t)) == Signals(es) + [x]
  {
    RaiseKeepsSignals(es + [Entry(x, t)], t);
    assert (es + [Entry(x, t)])[..|es|] == es;
  }

  lemma StepReports(history: History, op: Op, windowMs: int, key: Key)
    ensures Signals(Entries(NextHistory(history, op, windowMs), key))
         == match op
            case Ingests(x) =>
              if KeyOf(x) == key then Signals(Entries(history, key)) + [x] else Signals(Entries(history, key))
            case Dismisses(node) => if Key(node) == key then [] else Signals(Entries(history, key))
            case Counts(_, _) => Signals(Entries(history, key))
  {
    match op
    case Ingests(x) =>
      IngestRaises(history, x, windowMs, key);
      AppendSignals(Entries(history, key), x, x.at - windowMs);
    case Dismisses(_) =>
    case Counts(node, now) =>
      CountRaises(history, node, now, windowMs, key);
      RaiseKeepsSignals(Entries(history, key), now - windowMs);
  }

  lemma {:induction false} HistoryIsReported(ops: seq<Op>, windowMs: int, key: Key)
    ensures Signals(Entries(After(ops, windowMs).history, key)) == Reported(ops, key)
  {
    if ops != [] {
      HistoryIsReported(ops[..|ops| - 1], windowMs, key);
      StepReports(After(ops[..|ops| - 1], windowMs).history, ops[|ops| - 1], windowMs, key);
    }
  }

  lemma {:induction false} SinceCounts(signals: seq<Signal>, t: int, x: Signal)
    ensures multiset(Since(signals, t))[x] == if x.at >= t then multiset(signals)[x] else 0
  {
    if signals != [] {
      var init, last := signals[..|signals| - 1], signals[|signals| - 1];
      SinceCounts(init, t, x);
      assert signals == init + [last];
    }
  }

  /**
   For calls in time order, the window read with a bound holds exactly the signals ingested for the node since its last
   dismissal that are no older than the bound, each as often as it was ingested.
   */
  lemma WindowMeaning(ops: seq<Op>, windowMs: int, key: Key, t: int, x: Signal)
    requires BoundsUpTo(ops, windowMs, t)
    ensures multiset(Since(Get(After(ops, windowMs).store, key), t))[x]
         == if x.at >= t then multiset(Reported(ops, key))[x] else 0
  {
    PruningUnobservable(ops, windowMs, key, t);
    HistoryIsReported(ops, windowMs, key);
    SinceCounts(Reported(ops, key), t, x);
  }

  // ---------------------------------------------------------------- one node's signals stay its own

  /** The node a batch acts on, if any, is the key's. */
  predicate OwnBatch(batch: seq<Signal>, key: Key) {
    NodeOf(batch).Some? ==> Key(NodeOf(batch).value) == key
  }

  /** Signals are filed under their own node. */
  ghost predicate Filed(store: Store) {
    forall key, i :: key in store && 0 <= i < |store[key]| ==> KeyOf(store[key][i]) == key
  }

  lemma {:induction false} SinceMembers(signals: seq<Signal>, t: int)
    ensures forall s :: s in Since(signals, t) ==> s in signals
  {
    if signals != [] {
      SinceMembers(signals[..|signals| - 1], t);
    }
  }

  lemma {:induction false} NodeOfMember(signals: seq<Signal>)
    ensures NodeOf(signals).Some? ==> exists s :: s in signals && s.node == NodeOf(signals)
  {
    if signals != [] && !Named(signals[0]) {
      NodeOfMember(signals[1..]);
    }
  }

  lemma {:induction false} BatchOwn(all: seq<Signal>, key: Key, t: int)
    requires forall i :: 0 <= i < |all| ==> KeyOf(all[i]) == key
    ensures forall i :: 0 <= i < |Since(all, t)| ==> KeyOf(Since(all, t)[i]) == key
    ensures OwnBatch(Since(all, t), key)
  {
    SinceMembers(all, t);
    var batch := Since(all, t);
    assert forall i :: 0 <= i < |batch| ==> batch[i] in all;
    NodeOfMember(batch);
  }

  lemma AppendFiled(store: Store, s: Signal)
    requires Filed(store)
    ensures Filed(store[KeyOf(s) := Get(store, KeyOf(s)) + [s]])
  {
  }

  lemma PrunedFiled(store: Store, key: Key, t: int)
    requires Filed(store)
    ensures Filed(Pruned(store, key, t))
  {
    BatchOwn(Get(store, key), key, t);
  }

  lemma IngestedFiled(store: Store, s: Signal, windowMs: int)
    requires Filed(store)
    ensures Filed(Ingested(store, s, windowMs))
  {
    AppendFiled(store, s);
    PrunedFiled(store[KeyOf(s) := Get(store, KeyOf(s)) + [s]], KeyOf(s), s.at - windowMs);
  }

  lemma IngestActsOnOwn(store: Store, s: Signal, t: int)
    requires Filed(store)
    ensures OwnBatch(Since(Get(store, KeyOf(s)) + [s], t), KeyOf(s))
  {
    var all := Get(store, KeyOf(s)) + [s];
    assert forall i :: 0 <= i < |all| ==> KeyOf(all[i]) == KeyOf(s);
    BatchOwn(all, KeyOf(s), t);
  }

  lemma StepFiled(store: Store, op: Op, windowMs: int)
    requires Filed(store)
    ensures Filed(NextStore(store, op, windowMs))
  {
    match op
    case Ingests(x) =>
      IngestedFiled(store, x, windowMs);
    case Dismisses(_) =>
    case Counts(node, now) =>
      PrunedFiled(store, Key(node), now - windowMs);
  }

  lemma {:induction false} RunFiled(ops: seq<Op>, windowMs: int)
    ensures Filed(After(ops, windowMs).store)
  {
    if ops != [] {
      RunFiled(ops[..|ops| - 1], windowMs);
      StepFiled(After(ops[..|ops| - 1], windowMs).store, ops[|ops| - 1], windowMs);
    }
  }

  /** The batch a signal is evaluated in acts on no node but the signal's own; another node's window is left alone. */
  predicate ActsOnOwn(store: Store, s: Signal, windowMs: int, other: Key) {
    && (other != KeyOf(s) ==> Get(Ingested(store, s, windowMs), other) == Get(store, other))
    && OwnBatch(Since(Get(store, KeyOf(s)) + [s], s.at - windowMs), KeyOf(s))
  }

  lemma FiledActsOnOwn(store: Store, s: Signal, windowMs: int, other: Key)
    requires Filed(store)
    ensures ActsOnOwn(store, s, windowMs, other)
  {
    GetIngested(store, s, windowMs, other);
    IngestActsOnOwn(store, s, s.at - windowMs);
  }

  /** After every run, a signal triggers actions on no node but its own and leaves every other node's window alone. */
  lemma ActsOnOwnNode(ops: seq<Op>, s: Signal, windowMs: int, other: Key)
    ensures ActsOnOwn(After(ops, windowMs).store, s, windowMs, other)
  {
    RunFiled(ops, windowMs);
    FiledActsOnOwn(After(ops, windowMs).store, s, windowMs, other);
  }
}
