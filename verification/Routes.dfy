/**
 Route comparison in the agent's reconciler (src/agent/reconciler.ts): both lists are sorted by a joined key,
 serialised canonically and compared. The order stands for `localeCompare`.
 */
module Routes {
  import opened CanonicalJson
  import opened StableSort
  import opened Text
  import opened Wrappers

  /** The metric is carried as its numeric text. */
  datatype Route = Route(destination: string, gateway: Option<string>, interfaceName: string, metric: string)

  ghost predicate ValidRoute(r: Route) {
    WellFormed(Number(r.metric))
  }

  ghost predicate ValidRoutes(s: seq<Route>) {
    forall i :: 0 <= i < |s| ==> ValidRoute(s[i])
  }

  function RouteJson(r: Route): Json {
    Obj([Entry("destination", Str(r.destination))]
        + (if r.gateway.Some? then [Entry("gateway", Str(r.gateway.value))] else [])
        + [Entry("interfaceName", Str(r.interfaceName)), Entry("metric", Number(r.metric))])
  }

  function RoutesJson(s: seq<Route>): Json {
    Arr(seq(|s|, i requires 0 <= i < |s| => RouteJson(s[i])))
  }

  function RouteKey(r: Route): string {
    r.destination + ['|'] + (r.interfaceName + ['|'] + (GatewayText(r) + ['|'] + r.metric))
  }

  function GatewayText(r: Route): string {
    if r.gateway.Some? then r.gateway.value else ""
  }

  function ByRouteKey(lt: Order): (Route, Route) -> bool {
    (a: Route, b: Route) => lt(RouteKey(a), RouteKey(b))
  }

  function SortRoutes(s: seq<Route>, lt: Order): seq<Route> {
    Sort(s, ByRouteKey(lt))
  }

  /** `stable(sortRoutes(routes))`: the text whose hash is compared. */
  function Serial(s: seq<Route>, lt: Order): string {
    Print(RoutesJson(SortRoutes(s, lt)), lt)
  }

  lemma RouteJsonWellFormed(r: Route)
    requires ValidRoute(r)
    ensures WellFormed(RouteJson(r))
  {
    var es := RouteJson(r).entries;
    assert |"destination"| == 11 && |"gateway"| == 7 && |"interfaceName"| == 13 && |"metric"| == 6;
    assert forall i :: 0 <= i < |es| ==> WellFormed(es[i].value);
  }

  /** No field is lost: routes with equivalent objects are equal. */
  lemma RouteJsonInjective(a: Route, b: Route)
    requires ValidRoute(a) && ValidRoute(b) && Equivalent(RouteJson(a), RouteJson(b))
    ensures a == b
  {
    RouteJsonWellFormed(b);
    assert |Fields(a)| == |Fields(b)|;
    SameKeys(a, b);
    forall k | 0 <= k < |Fields(a)|
      ensures Equivalent(Fields(a)[k].value, Fields(b)[k].value)
    {
      EquivalentField(Fields(a), Fields(b), k);
    }
    SameFields(a, b);
  }

  function Fields(r: Route): seq<Entry> {
    RouteJson(r).entries
  }

  lemma SameKeys(a: Route, b: Route)
    requires |Fields(a)| == |Fields(b)|
    ensures forall k :: 0 <= k < |Fields(a)| ==> Fields(a)[k].key == Fields(b)[k].key
  {
    assert a.gateway.Some? <==> |Fields(a)| == 4;
  }

  lemma SameFields(a: Route, b: Route)
    requires |Fields(a)| == |Fields(b)|
    requires forall k :: 0 <= k < |Fields(a)| ==> Equivalent(Fields(a)[k].value, Fields(b)[k].value)
    ensures a == b
  {
    var es, fs, n := Fields(a), Fields(b), |Fields(a)|;
    assert a.gateway.Some? <==> n == 4;
    assert a.destination == b.destination by { assert Equivalent(es[0].value, fs[0].value); }
    assert a.gateway == b.gateway by { assert Equivalent(es[1].value, fs[1].value); }
    assert a.interfaceName == b.interfaceName by { assert Equivalent(es[n - 2].value, fs[n - 2].value); }
    assert a.metric == b.metric by { assert Equivalent(es[n - 1].value, fs[n - 1].value); }
  }

  lemma SortKeepsValid(s: seq<Route>, lt: Order)
    requires ValidRoutes(s)
    ensures ValidRoutes(SortRoutes(s, lt))
  {
    SortPermutes(s, ByRouteKey(lt));
    var t := SortRoutes(s, lt);
    forall i | 0 <= i < |t|
      ensures ValidRoute(t[i])
    {
      assert t[i] in s;
    }
  }

  lemma RoutesJsonWellFormed(s: seq<Route>)
    requires ValidRoutes(s)
    ensures WellFormed(RoutesJson(s))
  {
    forall i | 0 <= i < |s|
      ensures WellFormed(RoutesJson(s).items[i])
    {
      RouteJsonWellFormed(s[i]);
    }
  }

  /** The serialised text determines the sorted list. */
  lemma SerialDeterminesSorted(a: seq<Route>, b: seq<Route>, lt: Order)
    requires ValidRoutes(a) && ValidRoutes(b)
    ensures Serial(a, lt) == Serial(b, lt) <==> SortRoutes(a, lt) == SortRoutes(b, lt)
  {
    if Serial(a, lt) == Serial(b, lt) {
      var s, t := SortRoutes(a, lt), SortRoutes(b, lt);
      SortKeepsValid(a, lt);
      SortKeepsValid(b, lt);
      RoutesJsonWellFormed(s);
      RoutesJsonWellFormed(t);
      PrintDeterminesCanon(RoutesJson(s), RoutesJson(t), lt);
      CanonDeterminesValue(RoutesJson(s), RoutesJson(t), lt);
      assert |s| == |RoutesJson(s).items| == |t|;
      forall i | 0 <= i < |s|
        ensures s[i] == t[i]
      {
        assert Equivalent(RoutesJson(s).items[i], RoutesJson(t).items[i]);
        RouteJsonInjective(s[i], t[i]);
      }
    }
  }

  /** A difference in the routes is never missed: equal texts mean equal multisets, whatever the fields hold. */
  lemma SameSerialSameRoutes(a: seq<Route>, b: seq<Route>, lt: Order)
    requires ValidRoutes(a) && ValidRoutes(b) && Serial(a, lt) == Serial(b, lt)
    ensures multiset(a) == multiset(b)
  {
    SerialDeterminesSorted(a, b, lt);
    SortPermutes(a, ByRouteKey(lt));
    SortPermutes(b, ByRouteKey(lt));
  }

  lemma ByRouteKeyIsWeakOrder(lt: Order)
    requires TotalOrder(lt)
    ensures WeakOrder(ByRouteKey(lt))
  {
    var order := ByRouteKey(lt);
    assert forall x, y :: order(x, y) == lt(RouteKey(x), RouteKey(y));
  }

  lemma SameRoutesSameSerial(a: seq<Route>, b: seq<Route>, lt: Order)
    requires TotalOrder(lt) && NoTies(a, ByRouteKey(lt)) && multiset(a) == multiset(b)
    ensures Serial(a, lt) == Serial(b, lt)
  {
    ByRouteKeyIsWeakOrder(lt);
    SortSorts(a, ByRouteKey(lt));
    SortSorts(b, ByRouteKey(lt));
    SortPermutes(a, ByRouteKey(lt));
    SortPermutes(b, ByRouteKey(lt));
    SortedUnique(SortRoutes(a, lt), SortRoutes(b, lt), ByRouteKey(lt));
  }

  /** Routes whose fields do not contain the joining bar and whose gateway, when present, is not empty. */
  predicate Plain(r: Route) {
    '|' !in r.destination && '|' !in r.interfaceName && '|' !in GatewayText(r) && r.gateway != Some("")
  }

  lemma RouteKeyInjective(a: Route, b: Route)
    requires Plain(a) && Plain(b) && RouteKey(a) == RouteKey(b)
    ensures a == b
  {
    var a2, b2 := GatewayText(a) + ['|'] + a.metric, GatewayText(b) + ['|'] + b.metric;
    var a1, b1 := a.interfaceName + ['|'] + a2, b.interfaceName + ['|'] + b2;
    SplitFirst(a.destination, a1, b.destination, b1, '|');
    SplitFirst(a.interfaceName, a2, b.interfaceName, b2, '|');
    SplitFirst(GatewayText(a), a.metric, GatewayText(b), b.metric, '|');
  }

  lemma PlainRoutesNeverTie(s: seq<Route>, lt: Order)
    requires TotalOrder(lt) && forall r :: r in s ==> Plain(r)
    ensures NoTies(s, ByRouteKey(lt))
  {
    forall x, y | x in s && y in s && x != y
      ensures ByRouteKey(lt)(x, y) || ByRouteKey(lt)(y, x)
    {
      if RouteKey(x) == RouteKey(y) {
        RouteKeyInjective(x, y);
      }
    }
  }

  /** On plain routes the comparison is exact: the texts agree exactly when the routes agree as multisets. */
  lemma SerialIsCanonical(a: seq<Route>, b: seq<Route>, lt: Order)
    requires TotalOrder(lt) && ValidRoutes(a) && ValidRoutes(b) && forall r :: r in a ==> Plain(r)
    ensures Serial(a, lt) == Serial(b, lt) <==> multiset(a) == multiset(b)
  {
    if Serial(a, lt) == Serial(b, lt) {
      SameSerialSameRoutes(a, b, lt);
    }
    if multiset(a) == multiset(b) {
      PlainRoutesNeverTie(a, lt);
      SameRoutesSameSerial(a, b, lt);
    }
  }

  // ---------------------------------------------------------------- the exact condition

  /** Reading the same routes back in another order never looks like a change. */
  ghost predicate OrderInsensitive(a: seq<Route>, lt: Order) {
    forall b: seq<Route> :: multiset(b) == multiset(a) ==> Serial(b, lt) == Serial(a, lt)
  }

  /**
   The comparison ignores the order of a route list exactly when no two distinct routes in it share a sort position,
   as an absent gateway and an empty one do.
   */
  lemma OrderInsensitiveIffNoTies(a: seq<Route>, lt: Order)
    requires TotalOrder(lt) && ValidRoutes(a)
    ensures OrderInsensitive(a, lt) <==> NoTies(a, ByRouteKey(lt))
  {
    if NoTies(a, ByRouteKey(lt)) {
      forall b: seq<Route> | multiset(b) == multiset(a)
        ensures Serial(b, lt) == Serial(a, lt)
      {
        SameRoutesSameSerial(a, b, lt);
      }
    } else {
      var x, y :| x in a && y in a && x != y && !ByRouteKey(lt)(x, y) && !ByRouteKey(lt)(y, x);
      TiesBreakOrder(a, x, y, lt);
    }
  }

  lemma TiesBreakOrder(a: seq<Route>, x: Route, y: Route, lt: Order)
    requires TotalOrder(lt) && ValidRoutes(a)
    requires x in a && y in a && x != y && !ByRouteKey(lt)(x, y) && !ByRouteKey(lt)(y, x)
    ensures !OrderInsensitive(a, lt)
  {
    ByRouteKeyIsWeakOrder(lt);
    var b, c := TiedArrangements(a, x, y, ByRouteKey(lt));
    PermutedValid(a, b);
    PermutedValid(a, c);
    SerialDeterminesSorted(b, c, lt);
  }

  lemma PermutedValid(a: seq<Route>, b: seq<Route>)
    requires ValidRoutes(a) && multiset(a) == multiset(b)
    ensures ValidRoutes(b)
  {
    forall i | 0 <= i < |b|
      ensures ValidRoute(b[i])
    {
      assert b[i] in multiset(b);
      assert b[i] in a;
    }
  }
}
