/**
 The blind relay's session tables (services/relay/relay-server.ts): sessions by identifier, and an index of sessions by
 the text of each endpoint, against which every datagram is matched.
 */
module Relay {
  import opened Text
  import opened Wrappers

  datatype Endpoint = Endpoint(host: string, port: nat)

  datatype Session = Session(id: string, a: Endpoint, b: Endpoint)

  /** The text an endpoint is indexed by. */
  datatype Key = Key(text: string)

  function KeyOf(e: Endpoint): Key {
    Key(e.host + [':'] + Numeral(e.port, 10))
  }

  datatype Tables = Tables(sessions: map<string, Session>, byEndpoint: map<Key, Session>)

  function Registered(t: Tables, x: Session): Tables {
    Tables(t.sessions[x.id := x], t.byEndpoint[KeyOf(x.a) := x][KeyOf(x.b) := x])
  }

  function Unregistered(t: Tables, id: string): Tables {
    if id !in t.sessions then t
    else Tables(t.sessions - {id}, t.byEndpoint - {KeyOf(t.sessions[id].a)} - {KeyOf(t.sessions[id].b)})
  }

  /** Where a datagram goes; nowhere when its sender is not registered. */
  function Route(t: Tables, from: Endpoint): Option<Endpoint> {
    if KeyOf(from) !in t.byEndpoint then None
    else
      var x := t.byEndpoint[KeyOf(from)];
      Some(if from == x.a then x.b else x.a)
  }

  class BlindRelayServer {
    var sessions: map<string, Session>
    var byEndpoint: map<Key, Session>
    var bytesRelayed: nat

    function Contents(): Tables
      reads this
    {
      Tables(sessions, byEndpoint)
    }

    constructor ()
      ensures Contents() == Tables(map[], map[]) && bytesRelayed == 0
    {
      sessions, byEndpoint, bytesRelayed := map[], map[], 0;
    }

    method Register(x: Session)
      modifies this
      ensures Contents() == Registered(old(Contents()), x) && bytesRelayed == old(bytesRelayed)
    {
      sessions := sessions[x.id := x];
      byEndpoint := byEndpoint[KeyOf(x.a) := x];
      byEndpoint := byEndpoint[KeyOf(x.b) := x];
    }

    method Unregister(id: string)
      modifies this
      ensures Contents() == Unregistered(old(Contents()), id) && bytesRelayed == old(bytesRelayed)
    {
      if id !in sessions {
        return;
      }
      var x := sessions[id];
      byEndpoint := byEndpoint - {KeyOf(x.a)};
      byEndpoint := byEndpoint - {KeyOf(x.b)};
      sessions := sessions - {id};
    }

    method Forward(length: nat, from: Endpoint) returns (to: Option<Endpoint>)
      modifies this
      ensures Contents() == old(Contents()) && to == Route(Contents(), from)
      ensures bytesRelayed == old(bytesRelayed) + if to.Some? then length else 0
    {
      if KeyOf(from) !in byEndpoint {
        return None;
      }
      var x := byEndpoint[KeyOf(from)];
      var isA := from.host == x.a.host && from.port == x.a.port;
      to := Some(if isA then x.b else x.a);
      bytesRelayed := bytesRelayed + length;
    }
  }

  // ---------------------------------------------------------------- endpoints and their texts

  /** The text determines the endpoint, even for hosts that contain colons themselves. */
  lemma KeyDeterminesEndpoint(e: Endpoint, f: Endpoint)
    requires KeyOf(e) == KeyOf(f)
    ensures e == f
  {
    NumeralDigits(e.port, 10);
    NumeralDigits(f.port, 10);
    SplitLast(e.host, Numeral(e.port, 10), f.host, Numeral(f.port, 10), ':');
    NumeralInjective(e.port, f.port, 10);
  }

  // ---------------------------------------------------------------- the index against the sessions

  predicate Uses(x: Session, key: Key) {
    KeyOf(x.a) == key || KeyOf(x.b) == key
  }

  predicate Live(t: Tables, x: Session) {
    x.id in t.sessions && t.sessions[x.id] == x
  }

  /** The index is exactly the inverse of the sessions: it maps a key to the one live session that uses it. */
  ghost predicate Consistent(t: Tables) {
    && (forall id :: id in t.sessions ==> t.sessions[id].id == id)
    && (forall key :: key in t.byEndpoint ==> Live(t, t.byEndpoint[key]) && Uses(t.byEndpoint[key], key))
    && (forall x, key :: Live(t, x) && Uses(x, key) ==> key in t.byEndpoint && t.byEndpoint[key] == x)
  }

  /** What a registration must respect: no endpoint of another session, none of its own former ones left behind. */
  ghost predicate Fits(t: Tables, x: Session) {
    && (forall y, key :: Live(t, y) && y.id != x.id && Uses(y, key) ==> !Uses(x, key))
    && (x.id in t.sessions ==> forall key :: Uses(t.sessions[x.id], key) ==> Uses(x, key))
  }

  lemma FittingKeepsIndex(t: Tables, x: Session)
    requires Consistent(t) && Fits(t, x)
    ensures Consistent(Registered(t, x))
  {
    var t' := Registered(t, x);
    forall key | key in t'.byEndpoint
      ensures Live(t', t'.byEndpoint[key]) && Uses(t'.byEndpoint[key], key)
    {
      if !Uses(x, key) {
        assert t'.byEndpoint[key] == t.byEndpoint[key];
        assert Live(t, t.byEndpoint[key]) && Uses(t.byEndpoint[key], key);
      }
    }
    forall y, key | Live(t', y) && Uses(y, key)
      ensures key in t'.byEndpoint && t'.byEndpoint[key] == y
    {
      if y != x {
        assert Live(t, y);
      }
    }
  }

  lemma IndexNeedsFitting(t: Tables, x: Session)
    requires Consistent(t) && Consistent(Registered(t, x))
    ensures Fits(t, x)
  {
    var t' := Registered(t, x);
    forall y, key | Live(t, y) && y.id != x.id && Uses(y, key)
      ensures !Uses(x, key)
    {
      assert Live(t', y);
      assert Live(t', x);
    }
    if x.id in t.sessions {
      var o := t.sessions[x.id];
      forall key | Uses(o, key)
        ensures Uses(x, key)
      {
        assert Live(t, o);
        assert key in t'.byEndpoint && Live(t', t'.byEndpoint[key]);
        assert t.byEndpoint[key] == o;
      }
    }
  }

  /** A registration keeps the index right exactly when it fits. */
  lemma RegisterKeepsIndexIff(t: Tables, x: Session)
    requires Consistent(t)
    ensures Consistent(Registered(t, x)) <==> Fits(t, x)
  {
    if Fits(t, x) {
      FittingKeepsIndex(t, x);
    }
    if Consistent(Registered(t, x)) {
      IndexNeedsFitting(t, x);
    }
  }

  lemma IndexWithout(t: Tables, id: string, key: Key)
    requires Consistent(t) && id in t.sessions && key in Unregistered(t, id).byEndpoint
    ensures var x := Unregistered(t, id).byEndpoint[key];
            Live(Unregistered(t, id), x) && Uses(x, key)
  {
    assert Live(t, t.sessions[id]) && Live(t, t.byEndpoint[key]) && Uses(t.byEndpoint[key], key);
  }

  lemma SessionWithout(t: Tables, id: string, y: Session, key: Key)
    requires Consistent(t) && id in t.sessions && Live(Unregistered(t, id), y) && Uses(y, key)
    ensures key in Unregistered(t, id).byEndpoint && Unregistered(t, id).byEndpoint[key] == y
  {
    assert Live(t, t.sessions[id]) && Live(t, y) && t.byEndpoint[key] == y;
  }

  lemma UnregisterKeepsIndex(t: Tables, id: string)
    requires Consistent(t)
    ensures Consistent(Unregistered(t, id))
  {
    var t' := Unregistered(t, id);
    if id in t.sessions {
      forall key | key in t'.byEndpoint
        ensures Live(t', t'.byEndpoint[key]) && Uses(t'.byEndpoint[key], key)
      {
        IndexWithout(t, id, key);
      }
      forall y, key | Live(t', y) && Uses(y, key)
        ensures key in t'.byEndpoint && t'.byEndpoint[key] == y
      {
        SessionWithout(t, id, y, key);
      }
    }
  }

  /** Unregistering undoes the registration of a session with a new identifier and unused endpoints. */
  lemma UnregisterUndoesRegister(t: Tables, x: Session)
    requires Consistent(t) && x.id !in t.sessions && Fits(t, x)
    ensures Unregistered(Registered(t, x), x.id) == t
  {
    var t' := Unregistered(Registered(t, x), x.id);
    assert t'.sessions == t.sessions;
    forall key | key in t.byEndpoint
      ensures !Uses(x, key)
    {
      assert Live(t, t.byEndpoint[key]) && Uses(t.byEndpoint[key], key);
    }
    assert t'.byEndpoint == t.byEndpoint;
  }

  // ---------------------------------------------------------------- every run of registrations

  datatype Op = Registers(session: Session) | Unregisters(id: string)

  function Next(t: Tables, op: Op): Tables {
    match op
    case Registers(x) => Registered(t, x)
    case Unregisters(id) => Unregistered(t, id)
  }

  function After(ops: seq<Op>): Tables {
    if ops == [] then Tables(map[], map[]) else Next(After(ops[..|ops| - 1]), ops[|ops| - 1])
  }

  ghost predicate AllFit(ops: seq<Op>) {
    forall i :: 0 <= i < |ops| && ops[i].Registers? ==> Fits(After(ops[..i]), ops[i].session)
  }

  lemma {:induction false} RunConsistent(ops: seq<Op>)
    requires AllFit(ops)
    ensures Consistent(After(ops))
  {
    if ops != [] {
      var init := ops[..|ops| - 1];
      assert forall i :: 0 <= i < |init| ==> init[..i] == ops[..i];
      RunConsistent(init);
      match ops[|ops| - 1]
      case Registers(x) => FittingKeepsIndex(After(init), x);
      case Unregisters(id) => UnregisterKeepsIndex(After(init), id);
    }
  }

  lemma AfterStep(ops: seq<Op>, op: Op)
    ensures After(ops + [op]) == Next(After(ops), op)
  {
    assert (ops + [op])[..|ops|] == ops;
  }

  /** After every fitting run, a new session that fits leaves no trace once it is unregistered. */
  lemma FreshSessionLeavesNoTrace(ops: seq<Op>, x: Session)
    requires AllFit(ops) && x.id !in After(ops).sessions && Fits(After(ops), x)
    ensures After(ops + [Registers(x)] + [Unregisters(x.id)]) == After(ops)
  {
    RunConsistent(ops);
    AfterStep(ops, Registers(x));
    AfterStep(ops + [Registers(x)], Unregisters(x.id));
    UnregisterUndoesRegister(After(ops), x);
  }

  // ---------------------------------------------------------------- what the relay forwards

  predicate Peers(x: Session, from: Endpoint, to: Endpoint) {
    (from == x.a && to == x.b) || (from == x.b && to == x.a)
  }

  /** A datagram goes from one endpoint of a live session to the other, and to no one else. */
  lemma ForwardsWithinSession(ops: seq<Op>, from: Endpoint, to: Endpoint)
    requires AllFit(ops)
    ensures Route(After(ops), from) == Some(to) <==> exists x :: Live(After(ops), x) && Peers(x, from, to)
  {
    var t := After(ops);
    RunConsistent(ops);
    if Route(t, from) == Some(to) {
      var x := t.byEndpoint[KeyOf(from)];
      assert Live(t, x) && Uses(x, KeyOf(from));
      SenderIsEndpoint(x, from);
      assert Peers(x, from, to);
    }
    forall x | Live(t, x) && Peers(x, from, to)
      ensures Route(t, from) == Some(to)
    {
      assert Uses(x, KeyOf(from));
    }
  }

  lemma SenderIsEndpoint(x: Session, from: Endpoint)
    requires Uses(x, KeyOf(from))
    ensures from == x.a || from == x.b
  {
    if KeyOf(x.a) == KeyOf(from) {
      KeyDeterminesEndpoint(x.a, from);
    } else {
      KeyDeterminesEndpoint(x.b, from);
    }
  }

  /** Replies find their way back. */
  lemma RepliesReturn(ops: seq<Op>, from: Endpoint, to: Endpoint)
    requires AllFit(ops) && Route(After(ops), from) == Some(to)
    ensures Route(After(ops), to) == Some(from)
  {
    ForwardsWithinSession(ops, from, to);
    var x :| Live(After(ops), x) && Peers(x, from, to);
    assert Peers(x, to, from);
    ForwardsWithinSession(ops, to, from);
  }

  // ---------------------------------------------------------------- registrations that do not fit

  lemma DifferentKeys(e: Endpoint, f: Endpoint)
    requires e != f
    ensures KeyOf(e) != KeyOf(f)
  {
    if KeyOf(e) == KeyOf(f) {
      KeyDeterminesEndpoint(e, f);
    }
  }

  lemma RegisterFirst(x: Session)
    ensures After([Registers(x)]) == Registered(Tables(map[], map[]), x)
    ensures Consistent(After([Registers(x)]))
  {
    assert [Registers(x)][..0] == [];
    FittingKeepsIndex(Tables(map[], map[]), x);
  }

  /**
   A second session that reuses an endpoint takes over its datagrams: they go to the other session's peer, while replies
   to the first session still arrive. Unregistering the second session then drops them, although the first is live.
   */
  lemma SharedEndpointHijacks(x: Session, y: Session)
    requires x.id != y.id && y.a == x.a && x.a != x.b && y.b != x.a && y.b != x.b
    ensures var before := After([Registers(x)]);
            var shared := Registered(before, y);
            var after := Unregistered(shared, y.id);
            && Consistent(before) && !Fits(before, y) && !Consistent(shared)
            && Route(before, x.a) == Some(x.b)
            && Route(shared, x.a) == Some(y.b) && Route(shared, x.b) == Some(x.a)
            && Live(after, x) && Route(after, x.a) == None
  {
    var before := After([Registers(x)]);
    RegisterFirst(x);
    DifferentKeys(x.a, x.b);
    DifferentKeys(y.b, x.a);
    DifferentKeys(y.b, x.b);
    assert Live(before, x) && Uses(x, KeyOf(x.a)) && Uses(y, KeyOf(x.a));
    RegisterKeepsIndexIff(before, y);
  }

  /** Registering a session again under new endpoints leaves the old ones routed, though no live session has them. */
  lemma MovedSessionLeavesRoute(x: Session, y: Session)
    requires x.id == y.id && x.a != x.b && x.a != y.a && x.a != y.b && x.b != y.a && x.b != y.b
    ensures var before := After([Registers(x)]);
            var moved := Registered(before, y);
            && Consistent(before) && !Fits(before, y) && !Consistent(moved)
            && !Live(moved, x) && Route(moved, x.a) == Some(x.b)
            && Route(Unregistered(moved, y.id), x.a) == Some(x.b)
  {
    var before := After([Registers(x)]);
    RegisterFirst(x);
    DifferentKeys(x.a, x.b);
    DifferentKeys(x.a, y.a);
    DifferentKeys(x.a, y.b);
    assert Uses(before.sessions[x.id], KeyOf(x.a)) && !Uses(y, KeyOf(x.a));
    RegisterKeepsIndexIff(before, y);
  }
}
