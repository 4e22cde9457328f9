/**
 The hash-chained audit log (src/application/audit.ts) over the in-memory repository (src/infrastructure/memory.ts).
 The hash function is a parameter: collision-free and never equal to the chain's start marker.
 */
module AuditChain {
  import opened CanonicalJson
  import opened StableSort
  import opened Text

  type Hash = string -> string

  const GENESIS := "GENESIS"

  datatype Record = Record(
    sequence: nat, at: string, actor: string, action: string, subject: string,
    payload: Json, previousHash: string, hash: string)

  /** What a caller of `record` supplies, with the clock reading the call takes. */
  datatype Call = Call(at: string, actor: string, action: string, subject: string, payload: Json)

  ghost predicate IdealHash(h: Hash) {
    && (forall s, t :: h(s) == h(t) ==> s == t)
    && (forall s :: h(s) != GENESIS)
  }

  ghost predicate ValidPayload(p: Json) {
    p.Obj? && WellFormed(p)
  }

  /** The object whose canonical text is hashed. */
  function Body(r: Record): Json {
    Obj([Entry("sequence", Number(Numeral(r.sequence, 10))), Entry("at", Str(r.at)), Entry("actor", Str(r.actor)),
         Entry("action", Str(r.action)), Entry("subject", Str(r.subject)), Entry("payload", r.payload),
         Entry("previousHash", Str(r.previousHash))])
  }

  function Digest(r: Record, h: Hash, lt: Order): string {
    h(Print(Body(r), lt))
  }

  function HeadHash(chain: seq<Record>): string {
    if chain == [] then GENESIS else chain[|chain| - 1].hash
  }

  /** Every record links to the one before it and carries the hash of its own contents. */
  ghost predicate Linked(chain: seq<Record>, h: Hash, lt: Order) {
    forall i :: 0 <= i < |chain| ==>
      chain[i].previousHash == HeadHash(chain[..i]) && chain[i].hash == Digest(chain[i], h, lt)
  }

  function NextRecord(chain: seq<Record>, c: Call, h: Hash, lt: Order): Record {
    var sequence := if chain == [] then 1 else chain[|chain| - 1].sequence + 1;
    var r := Record(sequence, c.at, c.actor, c.action, c.subject, c.payload, HeadHash(chain), "");
    r.(hash := Digest(r, h, lt))
  }

  function Replay(calls: seq<Call>, h: Hash, lt: Order): seq<Record> {
    if calls == [] then []
    else
      var before := Replay(calls[..|calls| - 1], h, lt);
      before + [NextRecord(before, calls[|calls| - 1], h, lt)]
  }

  class AuditService {
    const hash: Hash
    const lt: Order
    var audits: seq<Record>

    constructor (hash: Hash, lt: Order)
      ensures audits == [] && this.hash == hash && this.lt == lt
    {
      this.hash := hash;
      this.lt := lt;
      audits := [];
    }

    /** `record`: appends one linked record; a chain that verified before verifies after. */
    method Append(c: Call) returns (r: Record)
      modifies this
      ensures audits == old(audits) + [r]
      ensures (r.at, r.actor, r.action, r.subject, r.payload) == (c.at, c.actor, c.action, c.subject, c.payload)
      ensures r == NextRecord(old(audits), c, hash, lt)
      ensures Linked(old(audits), hash, lt) ==> Linked(audits, hash, lt)
    {
      var previousHash, sequence := GENESIS, 1;
      if audits != [] {
        var last := audits[|audits| - 1];
        previousHash, sequence := last.hash, last.sequence + 1;
      }
      r := Record(sequence, c.at, c.actor, c.action, c.subject, c.payload, previousHash, "");
      r := r.(hash := Digest(r, hash, lt));
      ExtendLinked(audits, c, hash, lt);
      audits := audits + [r];
    }

    /** `verify`: true exactly when every link and every hash checks out. */
    method Verify() returns (ok: bool)
      ensures ok <==> Linked(audits, hash, lt)
    {
      var previous := GENESIS;
      for i := 0 to |audits|
        invariant previous == HeadHash(audits[..i])
        invariant Linked(audits[..i], hash, lt)
      {
        var r := audits[i];
        assert audits[..i + 1][..i] == audits[..i];
        var expected := Digest(r, hash, lt);
        if r.previousHash != previous || r.hash != expected {
          return false;
        }
        LinkedPush(audits[..i], r, hash, lt);
        assert audits[..i + 1] == audits[..i] + [r];
        previous := r.hash;
      }
      assert audits[..|audits|] == audits;
      return true;
    }
  }

  lemma LinkedPush(chain: seq<Record>, r: Record, h: Hash, lt: Order)
    requires Linked(chain, h, lt) && r.previousHash == HeadHash(chain) && r.hash == Digest(r, h, lt)
    ensures Linked(chain + [r], h, lt)
  {
    var longer := chain + [r];
    forall i | 0 <= i < |longer|
      ensures longer[i].previousHash == HeadHash(longer[..i]) && longer[i].hash == Digest(longer[i], h, lt)
    {
      assert longer[..i] == chain[..i];
      assert chain[..|chain|] == chain;
    }
  }

  lemma ExtendLinked(chain: seq<Record>, c: Call, h: Hash, lt: Order)
    ensures Linked(chain, h, lt) ==> Linked(chain + [NextRecord(chain, c, h, lt)], h, lt)
  {
    if Linked(chain, h, lt) {
      var r := NextRecord(chain, c, h, lt);
      assert Body(r) == Body(r.(hash := ""));
      LinkedPush(chain, r, h, lt);
    }
  }

  /** Every sequence of `record` calls on an empty store leaves a chain that verifies, numbered from 1. */
  lemma {:induction false} RecordedChainVerifies(calls: seq<Call>, h: Hash, lt: Order)
    ensures Linked(Replay(calls, h, lt), h, lt)
    ensures |Replay(calls, h, lt)| == |calls|
    ensures forall i :: 0 <= i < |calls| ==> Replay(calls, h, lt)[i].sequence == i + 1
  {
    if calls != [] {
      RecordedChainVerifies(calls[..|calls| - 1], h, lt);
      ExtendLinked(Replay(calls[..|calls| - 1], h, lt), calls[|calls| - 1], h, lt);
    }
  }

  /** Removing the newest records leaves a chain that verifies. */
  lemma TruncationVerifies(chain: seq<Record>, n: nat, h: Hash, lt: Order)
    requires Linked(chain, h, lt) && n <= |chain|
    ensures Linked(chain[..n], h, lt)
  {
    forall i | 0 <= i < n
      ensures chain[..n][i].previousHash == HeadHash(chain[..n][..i])
    {
      assert chain[..n][..i] == chain[..i];
    }
  }

  ghost predicate SameRecord(a: Record, b: Record) {
    && Equivalent(a.payload, b.payload)
    && a == b.(payload := a.payload)
  }

  ghost predicate SameChain(c: seq<Record>, d: seq<Record>) {
    |c| == |d| && forall i :: 0 <= i < |c| ==> SameRecord(c[i], d[i])
  }

  ghost predicate ValidPayloads(c: seq<Record>) {
    forall i :: 0 <= i < |c| ==> ValidPayload(c[i].payload)
  }

  lemma NumeralIsNumeric(n: nat)
    ensures WellFormed(Number(Numeral(n, 10)))
  {
    NumeralDigits(n, 10);
  }

  lemma BodyWellFormed(r: Record)
    requires ValidPayload(r.payload)
    ensures WellFormed(Body(r))
  {
    NumeralIsNumeric(r.sequence);
  }

  function Fields(r: Record): seq<Entry> {
    Body(r).entries
  }

  lemma SameKeys(a: Record, b: Record)
    ensures |Fields(a)| == |Fields(b)| == 7
    ensures forall k :: 0 <= k < 7 ==> Fields(a)[k].key == Fields(b)[k].key
  {
  }

  lemma SameScalars(a: Record, b: Record)
    requires forall k :: 0 <= k < 7 ==> Equivalent(Fields(a)[k].value, Fields(b)[k].value)
    requires a.hash == b.hash
    ensures SameRecord(a, b)
  {
    var es, fs := Fields(a), Fields(b);
    assert Number(Numeral(a.sequence, 10)) == Number(Numeral(b.sequence, 10)) by {
      assert Equivalent(es[0].value, fs[0].value);
    }
    NumeralInjective(a.sequence, b.sequence, 10);
    assert a.at == b.at by { assert Equivalent(es[1].value, fs[1].value); }
    assert a.actor == b.actor by { assert Equivalent(es[2].value, fs[2].value); }
    assert a.action == b.action by { assert Equivalent(es[3].value, fs[3].value); }
    assert a.subject == b.subject by { assert Equivalent(es[4].value, fs[4].value); }
    assert Equivalent(a.payload, b.payload) by { assert Equivalent(es[5].value, fs[5].value); }
    assert a.previousHash == b.previousHash by { assert Equivalent(es[6].value, fs[6].value); }
  }

  lemma SameBodySameRecord(a: Record, b: Record)
    requires Equivalent(Body(a), Body(b)) && WellFormed(Body(b)) && a.hash == b.hash
    ensures SameRecord(a, b)
  {
    SameKeys(a, b);
    forall k | 0 <= k < 7
      ensures Equivalent(Fields(a)[k].value, Fields(b)[k].value)
    {
      EquivalentField(Fields(a), Fields(b), k);
    }
    SameScalars(a, b);
  }

  lemma SameHashSameRecord(a: Record, b: Record, h: Hash, lt: Order)
    requires IdealHash(h) && TotalOrder(lt) && ValidPayload(a.payload) && ValidPayload(b.payload)
    requires a.hash == Digest(a, h, lt) == b.hash == Digest(b, h, lt)
    ensures SameRecord(a, b)
  {
    BodyWellFormed(a);
    BodyWellFormed(b);
    CanonicalFaithful(Body(a), Body(b), lt);
    SameBodySameRecord(a, b);
  }

  /**
   Two chains that verify and end in the same hash are the same chain, up to key order inside payloads: any change,
   deletion or insertion before an unchanged head is detected.
   */
  lemma {:induction false} HeadDeterminesChain(c: seq<Record>, d: seq<Record>, h: Hash, lt: Order)
    requires IdealHash(h) && TotalOrder(lt) && ValidPayloads(c) && ValidPayloads(d)
    requires Linked(c, h, lt) && Linked(d, h, lt) && HeadHash(c) == HeadHash(d)
    ensures SameChain(c, d)
  {
    HeadIsGenesisOnlyWhenEmpty(c, h, lt);
    HeadIsGenesisOnlyWhenEmpty(d, h, lt);
    if c != [] {
      PeelHeads(c, d, h, lt);
      HeadDeterminesChain(c[..|c| - 1], d[..|d| - 1], h, lt);
      SameChainPush(c, d);
    }
  }

  lemma PeelHeads(c: seq<Record>, d: seq<Record>, h: Hash, lt: Order)
    requires c != [] && d != []
    requires IdealHash(h) && TotalOrder(lt) && ValidPayloads(c) && ValidPayloads(d)
    requires Linked(c, h, lt) && Linked(d, h, lt) && HeadHash(c) == HeadHash(d)
    ensures SameRecord(c[|c| - 1], d[|d| - 1])
    ensures Linked(c[..|c| - 1], h, lt) && Linked(d[..|d| - 1], h, lt)
    ensures HeadHash(c[..|c| - 1]) == HeadHash(d[..|d| - 1])
    ensures ValidPayloads(c[..|c| - 1]) && ValidPayloads(d[..|d| - 1])
  {
    SameHashSameRecord(c[|c| - 1], d[|d| - 1], h, lt);
    TruncationVerifies(c, |c| - 1, h, lt);
    TruncationVerifies(d, |d| - 1, h, lt);
  }

  lemma HeadIsGenesisOnlyWhenEmpty(c: seq<Record>, h: Hash, lt: Order)
    requires IdealHash(h) && Linked(c, h, lt)
    ensures HeadHash(c) == GENESIS <==> c == []
  {
  }

  lemma SameChainPush(c: seq<Record>, d: seq<Record>)
    requires c != [] && d != [] && SameChain(c[..|c| - 1], d[..|d| - 1])
    requires SameRecord(c[|c| - 1], d[|d| - 1])
    ensures SameChain(c, d)
  {
    forall i | 0 <= i < |c| - 1
      ensures SameRecord(c[i], d[i])
    {
      assert c[i] == c[..|c| - 1][i] && d[i] == d[..|d| - 1][i];
    }
  }

  // ---------------------------------------------------------------- what the head tells

  /** Equal in everything a record says besides its hashes, payloads up to key order. */
  ghost predicate SameEvent(a: Record, b: Record) {
    && (a.sequence, a.at, a.actor, a.action, a.subject) == (b.sequence, b.at, b.actor, b.action, b.subject)
    && Equivalent(a.payload, b.payload)
  }

  ghost predicate SameEvents(c: seq<Record>, d: seq<Record>) {
    |c| == |d| && forall i :: 0 <= i < |c| ==> SameEvent(c[i], d[i])
  }

  lemma SameEventSameHash(a: Record, b: Record, h: Hash, lt: Order)
    requires IdealHash(h) && TotalOrder(lt) && ValidPayload(a.payload) && ValidPayload(b.payload)
    requires SameEvent(a, b) && a.previousHash == b.previousHash
    ensures Digest(a, h, lt) == Digest(b, h, lt)
  {
    BodyWellFormed(a);
    BodyWellFormed(b);
    assert forall k :: 0 <= k < 7 ==> Equivalent(Fields(a)[k].value, Fields(b)[k].value);
    SameKeys(a, b);
    FieldsEquivalent(Body(a), Body(b));
    EquivalentPrintsSame(Body(a), Body(b), lt);
  }

  lemma NextHead(c: seq<Record>, d: seq<Record>, n: nat, h: Hash, lt: Order)
    requires IdealHash(h) && TotalOrder(lt) && n < |c| && n < |d|
    requires ValidPayload(c[n].payload) && ValidPayload(d[n].payload) && Linked(c, h, lt) && Linked(d, h, lt)
    requires SameEvent(c[n], d[n]) && HeadHash(c[..n]) == HeadHash(d[..n])
    ensures c[n].hash == d[n].hash
  {
    assert c[n].previousHash == HeadHash(c[..n]) && d[n].previousHash == HeadHash(d[..n]);
    SameEventSameHash(c[n], d[n], h, lt);
  }

  lemma {:induction false} SameEventsSameHead(c: seq<Record>, d: seq<Record>, n: nat, h: Hash, lt: Order)
    requires IdealHash(h) && TotalOrder(lt) && ValidPayloads(c) && ValidPayloads(d)
    requires Linked(c, h, lt) && Linked(d, h, lt) && SameEvents(c, d) && n <= |c|
    ensures HeadHash(c[..n]) == HeadHash(d[..n])
    decreases n
  {
    if n > 0 {
      SameEventsSameHead(c, d, n - 1, h, lt);
      assert SameEvent(c[n - 1], d[n - 1]);
      NextHead(c, d, n - 1, h, lt);
    }
  }

  /**
   Chains that verify end in the same hash exactly when they tell the same events. An edit that leaves a verifying
   chain, such as truncating it or rewriting records with fresh hashes, so goes unseen by `verify`, but never by someone
   who kept the head.
   */
  lemma SameHeadIffSameEvents(c: seq<Record>, d: seq<Record>, h: Hash, lt: Order)
    requires IdealHash(h) && TotalOrder(lt) && ValidPayloads(c) && ValidPayloads(d)
    requires Linked(c, h, lt) && Linked(d, h, lt)
    ensures HeadHash(c) == HeadHash(d) <==> SameEvents(c, d)
  {
    if HeadHash(c) == HeadHash(d) {
      HeadDeterminesChain(c, d, h, lt);
      assert forall i :: 0 <= i < |c| ==> SameRecord(c[i], d[i]);
    }
    if SameEvents(c, d) {
      SameEventsSameHead(c, d, |c|, h, lt);
      assert c[..|c|] == c && d[..|d|] == d;
    }
  }

  /** A history rewritten from scratch verifies just as well, under another head unless it tells the same events. */
  lemma RewritingVerifies(calls: seq<Call>, others: seq<Call>, h: Hash, lt: Order)
    requires IdealHash(h) && TotalOrder(lt)
    requires forall i :: 0 <= i < |calls| ==> ValidPayload(calls[i].payload)
    requires forall i :: 0 <= i < |others| ==> ValidPayload(others[i].payload)
    ensures Linked(Replay(calls, h, lt), h, lt) && Linked(Replay(others, h, lt), h, lt)
    ensures HeadHash(Replay(calls, h, lt)) == HeadHash(Replay(others, h, lt)) <==>
      SameEvents(Replay(calls, h, lt), Replay(others, h, lt))
  {
    RecordedChainVerifies(calls, h, lt);
    RecordedChainVerifies(others, h, lt);
    ReplayValid(calls, h, lt);
    ReplayValid(others, h, lt);
    SameHeadIffSameEvents(Replay(calls, h, lt), Replay(others, h, lt), h, lt);
  }

  lemma {:induction false} ReplayValid(calls: seq<Call>, h: Hash, lt: Order)
    requires forall i :: 0 <= i < |calls| ==> ValidPayload(calls[i].payload)
    ensures ValidPayloads(Replay(calls, h, lt))
  {
    if calls != [] {
      ReplayValid(calls[..|calls| - 1], h, lt);
    }
  }
}
