/**
 Mesh address allocation (services/mesh-controller/controller.ts): the first counter whose IPv4 and IPv6 addresses are
 both free. The IPv4 address repeats with period 65024, before the counter's range ends.
 */
module Allocator {
  import opened Text
  import opened Wrappers

  const FIRST := 2
  const LIMIT := 65534
  const PERIOD := 65024

  datatype Lease = Lease(ipv4: string, ipv6: string)

  function ThirdOctet(n: nat): nat { (10 + n / 254) % 256 }

  function FourthOctet(n: nat): nat { n % 254 + 1 }

  function Ipv4(n: nat): string {
    DottedOctets(ThirdOctet(n), FourthOctet(n))
  }

  function Ipv6(n: nat): string {
    "fd14:4b41:5043::" + Numeral(n, 16)
  }

  /** How counters are turned into addresses. */
  datatype Naming = Naming(v4: nat -> string, v6: nat -> string)

  const MESH := Naming(Ipv4, Ipv6)

  function At(naming: Naming, n: nat): Lease { Lease(naming.v4(n), naming.v6(n)) }

  predicate Free(naming: Naming, used4: set<string>, used6: set<string>, n: nat) {
    naming.v4(n) !in used4 && naming.v6(n) !in used6
  }

  /** What `next` returns: the addresses of the least free counter, or nothing when the range has none. */
  ghost predicate IsNext(naming: Naming, used4: set<string>, used6: set<string>, r: Option<Lease>) {
    match r
    case None => forall n: nat :: FIRST <= n < LIMIT ==> !Free(naming, used4, used6, n)
    case Some(lease) =>
      exists n: nat ::
        && FIRST <= n < LIMIT && Free(naming, used4, used6, n) && lease == At(naming, n)
        && forall m: nat :: FIRST <= m < n ==> !Free(naming, used4, used6, m)
  }

  method NextLease(used4: set<string>, used6: set<string>) returns (r: Option<Lease>)
    ensures IsNext(MESH, used4, used6, r)
  {
    for n := FIRST to LIMIT
      invariant forall m: nat :: FIRST <= m < n ==> !Free(MESH, used4, used6, m)
    {
      var ipv4, ipv6 := Ipv4(n), Ipv6(n);
      if ipv4 !in used4 && ipv6 !in used6 {
        assert Free(MESH, used4, used6, n);
        return Some(Lease(ipv4, ipv6));
      }
    }
    return None;
  }

  // ---------------------------------------------------------------- when two counters share an address

  lemma OctetsInRange(n: nat)
    ensures 0 <= ThirdOctet(n) <= 255 && 1 <= FourthOctet(n) <= 254
  {
  }

  lemma OctetsFromResidue(m: nat, n: nat)
    ensures ThirdOctet(m) == ThirdOctet(n) && FourthOctet(m) == FourthOctet(n) <==> m % PERIOD == n % PERIOD
  {
    Residue(m);
    Residue(n);
    ShiftedOctet(m / 254, n / 254);
    MixedRadix((m / 254) % 256, m % 254, (n / 254) % 256, n % 254);
  }

  lemma ShiftedOctet(p: nat, q: nat)
    ensures (10 + p) % 256 == (10 + q) % 256 <==> p % 256 == q % 256
  {
    Shifted(p);
    Shifted(q);
  }

  lemma Shifted(p: nat)
    ensures (10 + p) % 256 == p % 256 + if p % 256 < 246 then 10 else -246
  {
    var k, r := p / 256, p % 256;
    assert p == 256 * k + r && 0 <= r < 256;
  }

  lemma MixedRadix(a: nat, b: nat, c: nat, d: nat)
    requires b < 254 && d < 254
    ensures 254 * a + b == 254 * c + d <==> a == c && b == d
  {
  }

  /** 254 times 256 is the period. */
  lemma Residue(n: nat)
    ensures n % PERIOD == 254 * ((n / 254) % 256) + n % 254
  {
    var q := n / 254;
    var k, r, d := q / 256, q % 256, n % 254;
    assert n == 254 * q + d && q == 256 * k + r;
    RemainderOf(k, 254 * r + d, n);
  }

  lemma RemainderOf(k: nat, r: nat, n: nat)
    requires n == PERIOD * k + r && r < PERIOD
    ensures n % PERIOD == r
  {
  }

  lemma Cancel(prefix: string, a: string, b: string)
    requires prefix + a == prefix + b
    ensures a == b
  {
    assert a == (prefix + a)[|prefix|..] && b == (prefix + b)[|prefix|..];
  }

  lemma DottedPair(a: nat, b: nat, c: nat, d: nat)
    requires Numeral(a, 10) + "." + Numeral(b, 10) == Numeral(c, 10) + "." + Numeral(d, 10)
    ensures a == c && b == d
  {
    NumeralDigits(a, 10);
    NumeralDigits(c, 10);
    SplitFirst(Numeral(a, 10), Numeral(b, 10), Numeral(c, 10), Numeral(d, 10), '.');
    NumeralInjective(a, c, 10);
    NumeralInjective(b, d, 10);
  }

  /** Two counters share an IPv4 address exactly when they differ by a multiple of the period. */
  lemma SameIpv4Iff(m: nat, n: nat)
    ensures Ipv4(m) == Ipv4(n) <==> m % PERIOD == n % PERIOD
  {
    OctetsFromResidue(m, n);
    if Ipv4(m) == Ipv4(n) {
      var a, b := ThirdOctet(m), FourthOctet(m);
      var c, d := ThirdOctet(n), FourthOctet(n);
      Cancel("10.144.", Numeral(a, 10) + "." + Numeral(b, 10), Numeral(c, 10) + "." + Numeral(d, 10));
      DottedPair(a, b, c, d);
    }
  }

  lemma SameIpv6Iff(m: nat, n: nat)
    ensures Ipv6(m) == Ipv6(n) <==> m == n
  {
    if Ipv6(m) == Ipv6(n) {
      Cancel("fd14:4b41:5043::", Numeral(m, 16), Numeral(n, 16));
      NumeralInjective(m, n, 16);
    }
  }

  /** The first address repeats with the period, the second never. */
  ghost predicate Periodic(naming: Naming) {
    && (forall m: nat, n: nat :: naming.v4(m) == naming.v4(n) <==> m % PERIOD == n % PERIOD)
    && (forall m: nat, n: nat :: naming.v6(m) == naming.v6(n) <==> m == n)
  }

  lemma MeshIsPeriodic()
    ensures Periodic(MESH)
  {
    forall m: nat, n: nat
      ensures MESH.v4(m) == MESH.v4(n) <==> m % PERIOD == n % PERIOD
      ensures MESH.v6(m) == MESH.v6(n) <==> m == n
    {
      SameIpv4Iff(m, n);
      SameIpv6Iff(m, n);
    }
  }

  // ---------------------------------------------------------------- allocating and releasing

  /** The lease store reports every live lease. */
  function Used4(leases: set<Lease>): set<string> { set l | l in leases :: l.ipv4 }

  function Used6(leases: set<Lease>): set<string> { set l | l in leases :: l.ipv6 }

  datatype Event = Allocates | Releases(lease: Lease)

  ghost predicate Step(naming: Naming, before: set<Lease>, e: Event, after: set<Lease>) {
    match e
    case Allocates =>
      exists r ::
        && IsNext(naming, Used4(before), Used6(before), r)
        && after == if r.Some? then before + {r.value} else before
    case Releases(lease) => after == before - {lease}
  }

  ghost predicate IsRun(naming: Naming, run: seq<set<Lease>>, events: seq<Event>) {
    && |run| == |events| + 1
    && run[0] == {}
    && forall i :: 0 <= i < |events| ==> Step(naming, run[i], events[i], run[i + 1])
  }

  /** Every live lease is the address pair of a counter within the first period. */
  ghost predicate InFirstPeriod(naming: Naming, leases: set<Lease>) {
    forall l :: l in leases ==> exists n: nat :: FIRST <= n < FIRST + PERIOD && l == At(naming, n)
  }

  /** Within the first period a counter is free exactly when it is not leased. */
  lemma FreeIffNotLeased(naming: Naming, leases: set<Lease>, n: nat)
    requires Periodic(naming) && InFirstPeriod(naming, leases) && FIRST <= n < FIRST + PERIOD
    ensures Free(naming, Used4(leases), Used6(leases), n) <==> At(naming, n) !in leases
  {
    if At(naming, n) in leases {
      assert naming.v4(n) in Used4(leases);
    } else {
      forall l | l in leases
        ensures l.ipv4 != naming.v4(n) && l.ipv6 != naming.v6(n)
      {
        var m: nat :| FIRST <= m < FIRST + PERIOD && l == At(naming, m);
      }
    }
  }

  /** Past the first period a counter is free only if the one a period earlier is. */
  lemma SecondPeriodBlocked(naming: Naming, leases: set<Lease>, n: nat)
    requires Periodic(naming) && InFirstPeriod(naming, leases)
    requires FIRST + PERIOD <= n < LIMIT && At(naming, n - PERIOD) in leases
    ensures !Free(naming, Used4(leases), Used6(leases), n)
  {
    assert naming.v4(n - PERIOD) in Used4(leases);
  }

  /** `next` never hands out a counter past the first period, and what it hands out was not leased. */
  lemma NextInFirstPeriod(naming: Naming, leases: set<Lease>, r: Option<Lease>)
    requires Periodic(naming) && InFirstPeriod(naming, leases)
    requires IsNext(naming, Used4(leases), Used6(leases), r) && r.Some?
    ensures InFirstPeriod(naming, leases + {r.value})
    ensures r.value !in leases && r.value.ipv4 !in Used4(leases) && r.value.ipv6 !in Used6(leases)
  {
    var n: nat :|
      && FIRST <= n < LIMIT && Free(naming, Used4(leases), Used6(leases), n) && r.value == At(naming, n)
      && forall m: nat :: FIRST <= m < n ==> !Free(naming, Used4(leases), Used6(leases), m);
    if n >= FIRST + PERIOD {
      FreeIffNotLeased(naming, leases, n - PERIOD);
      SecondPeriodBlocked(naming, leases, n);
    }
  }

  lemma {:induction false} RunInFirstPeriod(naming: Naming, run: seq<set<Lease>>, events: seq<Event>, i: nat)
    requires Periodic(naming) && IsRun(naming, run, events) && i < |run|
    ensures InFirstPeriod(naming, run[i])
  {
    if i > 0 {
      RunInFirstPeriod(naming, run, events, i - 1);
      assert Step(naming, run[i - 1], events[i - 1], run[i]);
      if events[i - 1].Allocates? {
        var r :| IsNext(naming, Used4(run[i - 1]), Used6(run[i - 1]), r)
              && run[i] == if r.Some? then run[i - 1] + {r.value} else run[i - 1];
        if r.Some? {
          NextInFirstPeriod(naming, run[i - 1], r);
        }
      }
    }
  }

  /** In every reachable state two live leases share neither address. */
  lemma LiveLeasesDisjoint(naming: Naming, run: seq<set<Lease>>, events: seq<Event>, i: nat, a: Lease, b: Lease)
    requires Periodic(naming) && IsRun(naming, run, events) && i < |run| && a in run[i] && b in run[i] && a != b
    ensures a.ipv4 != b.ipv4 && a.ipv6 != b.ipv6
  {
    RunInFirstPeriod(naming, run, events, i);
    var m: nat :| FIRST <= m < FIRST + PERIOD && a == At(naming, m);
    var n: nat :| FIRST <= n < FIRST + PERIOD && b == At(naming, n);
  }

  // ---------------------------------------------------------------- capacity

  /** The leases of the first `k` counters. */
  function FirstLeases(naming: Naming, k: nat): set<Lease> {
    if k == 0 then {} else FirstLeases(naming, k - 1) + {At(naming, FIRST + k - 1)}
  }

  lemma {:induction false} FirstLeasesAre(naming: Naming, k: nat, l: Lease)
    ensures l in FirstLeases(naming, k) <==> exists n: nat :: FIRST <= n < FIRST + k && l == At(naming, n)
  {
    if k > 0 {
      FirstLeasesAre(naming, k - 1, l);
    }
  }

  lemma {:induction false} FirstLeasesCount(naming: Naming, k: nat)
    requires Periodic(naming)
    ensures |FirstLeases(naming, k)| == k
  {
    if k > 0 {
      FirstLeasesCount(naming, k - 1);
      var last := FIRST + k - 1;
      FirstLeasesAre(naming, k - 1, At(naming, last));
    }
  }

  lemma FullSubset<T>(a: set<T>, b: set<T>)
    requires a <= b
    ensures |a| <= |b| && (|a| == |b| <==> a == b)
  {
    assert b == a + (b - a);
    assert |b| == |a| + |b - a|;
  }

  /** Allocation fails exactly when 65024 leases are live, in every reachable state. */
  lemma ExhaustedIffFull(naming: Naming, run: seq<set<Lease>>, events: seq<Event>, i: nat, r: Option<Lease>)
    requires Periodic(naming) && IsRun(naming, run, events) && i < |run|
    requires IsNext(naming, Used4(run[i]), Used6(run[i]), r)
    ensures |run[i]| <= 65024
    ensures r.None? <==> |run[i]| == 65024
  {
    var leases, all := run[i], FirstLeases(naming, PERIOD);
    RunInFirstPeriod(naming, run, events, i);
    forall l | l in leases
      ensures l in all
    {
      FirstLeasesAre(naming, PERIOD, l);
    }
    FirstLeasesCount(naming, PERIOD);
    FullSubset(leases, all);
    if leases == all {
      FullBlocksAll(naming, leases, r);
    } else if r.None? {
      var l :| l in all && l !in leases;
      FirstLeasesAre(naming, PERIOD, l);
      var n: nat :| FIRST <= n < FIRST + PERIOD && l == At(naming, n);
      FreeIffNotLeased(naming, leases, n);
    }
  }

  lemma FullBlocksAll(naming: Naming, leases: set<Lease>, r: Option<Lease>)
    requires Periodic(naming) && InFirstPeriod(naming, leases) && leases == FirstLeases(naming, PERIOD)
    requires IsNext(naming, Used4(leases), Used6(leases), r)
    ensures r.None?
  {
    if r.Some? {
      NextInFirstPeriod(naming, leases, r);
      var n: nat :| FIRST <= n < FIRST + PERIOD && r.value == At(naming, n);
      FirstLeasesAre(naming, PERIOD, r.value);
    }
  }

  /**
   The mesh's own pool: from every reachable set of leases, `next` hands out a fresh pair whose counter is below 65026
   and whose last octet is neither 0 nor 255, and fails exactly when 65024 leases are live.
   */
  lemma MeshCapacity(run: seq<set<Lease>>, events: seq<Event>, i: nat, r: Option<Lease>)
    requires IsRun(MESH, run, events) && i < |run| && IsNext(MESH, Used4(run[i]), Used6(run[i]), r)
    ensures r.None? <==> |run[i]| == 65024
    ensures r.Some? ==> r.value.ipv4 !in Used4(run[i]) && r.value.ipv6 !in Used6(run[i])
    ensures r.Some? ==> exists n: nat :: 2 <= n < 65026 && r.value == At(MESH, n) && HostAddress(r.value.ipv4)
  {
    MeshIsPeriodic();
    ExhaustedIffFull(MESH, run, events, i, r);
    RunInFirstPeriod(MESH, run, events, i);
    if r.Some? {
      NextInFirstPeriod(MESH, run[i], r);
      assert r.value in run[i] + {r.value};
      var n: nat :| FIRST <= n < FIRST + PERIOD && r.value == At(MESH, n);
      CounterIsHost(n);
    }
  }

  /** An address of the mesh's IPv4 range with octets in range, its last one neither 0 nor 255. */
  ghost predicate HostAddress(ipv4: string) {
    exists third: nat, fourth: nat :: DottedOctets(third, fourth) == ipv4 && third <= 255 && 1 <= fourth <= 254
  }

  function DottedOctets(third: nat, fourth: nat): string {
    "10.144." + (Numeral(third, 10) + "." + Numeral(fourth, 10))
  }

  lemma CounterIsHost(n: nat)
    ensures HostAddress(Ipv4(n))
  {
    OctetsInRange(n);
    assert DottedOctets(ThirdOctet(n), FourthOctet(n)) == Ipv4(n);
  }

  // ---------------------------------------------------------------- which addresses, in which order

  lemma SuccessorOctets(n: nat)
    ensures FourthOctet(n) < 254 ==> ThirdOctet(n + 1) == ThirdOctet(n) && FourthOctet(n + 1) == FourthOctet(n) + 1
    ensures FourthOctet(n) == 254 ==> ThirdOctet(n + 1) == (ThirdOctet(n) + 1) % 256 && FourthOctet(n + 1) == 1
  {
    var q, r := n / 254, n % 254;
    assert n == 254 * q + r;
    if r < 253 {
      assert n + 1 == 254 * q + (r + 1);
      assert (n + 1) / 254 == q && (n + 1) % 254 == r + 1;
    } else {
      assert n + 1 == 254 * (q + 1);
      assert (n + 1) / 254 == q + 1 && (n + 1) % 254 == 0;
      NextOctet(q);
    }
  }

  /** The addresses follow one another host by host, then subnet by subnet. */
  lemma SuccessorAddress(n: nat, third: nat, fourth: nat)
    requires Ipv4(n) == DottedOctets(third, fourth)
    ensures Ipv4(n + 1) == if fourth < 254 then DottedOctets(third, fourth + 1) else DottedOctets((third + 1) % 256, 1)
  {
    Cancel("10.144.", Numeral(ThirdOctet(n), 10) + "." + Numeral(FourthOctet(n), 10),
           Numeral(third, 10) + "." + Numeral(fourth, 10));
    DottedPair(ThirdOctet(n), FourthOctet(n), third, fourth);
    OctetsInRange(n);
    SuccessorOctets(n);
  }

  lemma NextOctet(q: nat)
    ensures (10 + (q + 1)) % 256 == ((10 + q) % 256 + 1) % 256
  {
    var k, r := (10 + q) / 256, (10 + q) % 256;
    assert 10 + q == 256 * k + r;
    if r == 255 {
      assert 11 + q == 256 * (k + 1);
    } else {
      assert 11 + q == 256 * k + (r + 1);
    }
  }

  lemma NextInOrder(naming: Naming, k: nat, r: Option<Lease>)
    requires Periodic(naming) && k < PERIOD
    requires IsNext(naming, Used4(FirstLeases(naming, k)), Used6(FirstLeases(naming, k)), r)
    ensures r == Some(At(naming, FIRST + k))
  {
    var leases := FirstLeases(naming, k);
    forall l | l in leases
      ensures exists n: nat :: FIRST <= n < FIRST + PERIOD && l == At(naming, n)
    {
      FirstLeasesAre(naming, k, l);
    }
    forall n: nat | FIRST <= n <= FIRST + k
      ensures Free(naming, Used4(leases), Used6(leases), n) <==> n == FIRST + k
    {
      FreeIffNotLeased(naming, leases, n);
      FirstLeasesAre(naming, k, At(naming, n));
    }
    assert Free(naming, Used4(leases), Used6(leases), FIRST + k);
    if r.Some? {
      var n: nat :|
        && FIRST <= n < LIMIT && Free(naming, Used4(leases), Used6(leases), n) && r.value == At(naming, n)
        && forall m: nat :: FIRST <= m < n ==> !Free(naming, Used4(leases), Used6(leases), m);
      assert n == FIRST + k;
    }
  }

  lemma FirstNumerals()
    ensures Numeral(10, 10) == "10" && Numeral(3, 10) == "3" && Numeral(2, 16) == "2"
  {
    assert Numeral(10, 10) == Numeral(1, 10) + [Digit(0)];
    assert Numeral(1, 10) == "1";
  }

  lemma Joined(a: string, b: string)
    requires a == "10" && b == "3"
    ensures "10.144." + (a + "." + b) == "10.144.10.3"
  {
  }

  lemma FirstAddresses()
    ensures Ipv4(2) == "10.144.10.3" && Ipv6(2) == "fd14:4b41:5043::2"
  {
    assert ThirdOctet(2) == 10 && FourthOctet(2) == 3;
    FirstNumerals();
    Joined(Numeral(10, 10), Numeral(3, 10));
    assert "fd14:4b41:5043::" + "2" == "fd14:4b41:5043::2";
  }

  /** The first pair a mesh without leases hands out. */
  lemma FirstLease(r: Option<Lease>)
    requires IsNext(MESH, {}, {}, r)
    ensures r == Some(Lease("10.144.10.3", "fd14:4b41:5043::2"))
  {
    MeshIsPeriodic();
    assert Used4(FirstLeases(MESH, 0)) == {} && Used6(FirstLeases(MESH, 0)) == {};
    NextInOrder(MESH, 0, r);
    FirstAddresses();
  }

  lemma FillStep(naming: Naming, k: nat, after: set<Lease>)
    requires Periodic(naming) && k < PERIOD && Step(naming, FirstLeases(naming, k), Allocates, after)
    ensures after == FirstLeases(naming, k + 1)
  {
    var before := FirstLeases(naming, k);
    var r :| IsNext(naming, Used4(before), Used6(before), r) && after == if r.Some? then before + {r.value} else before;
    NextInOrder(naming, k, r);
  }

  /** Without releases, the pairs are handed out in the order of their counters. */
  lemma {:induction false} FillsInOrder(naming: Naming, run: seq<set<Lease>>, events: seq<Event>, k: nat)
    requires Periodic(naming) && IsRun(naming, run, events) && k < |run| && k <= PERIOD
    requires forall i :: 0 <= i < k ==> events[i] == Allocates
    ensures run[k] == FirstLeases(naming, k)
  {
    if k > 0 {
      FillsInOrder(naming, run, events, k - 1);
      assert Step(naming, run[k - 1], events[k - 1], run[k]);
      FillStep(naming, k - 1, run[k]);
    }
  }
}
