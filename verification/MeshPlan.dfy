/** The peer plan a mesh node should hold (services/mesh-controller/controller.ts), as the payload that carries it. */
module MeshPlan {
  import opened CanonicalJson
  import opened Wire
  import opened Wrappers

  datatype MeshNode = MeshNode(
    id: string, publicKey: string, ipv4: string, ipv6: string, zone: string, active: bool)

  datatype PeerPlan = PeerPlan(
    nodeId: string, publicKey: string, endpoint: Option<string>, allowedIps: seq<string>, relayed: bool)

  predicate Allowed(a: string, b: string) {
    if a == "ZONE_FORENSIC_ISOLATION" || b == "ZONE_FORENSIC_ISOLATION"
    then a == "ZONE_ADMIN_MGMT" || b == "ZONE_ADMIN_MGMT"
    else !(a == "ZONE_DEV" && b == "ZONE_PROD_DATA")
  }

  predicate Eligible(node: MeshNode, p: MeshNode) {
    p.active && p.id != node.id && Allowed(node.zone, p.zone)
  }

  /** An empty relay endpoint counts as none. */
  function PeerFor(p: MeshNode, relay: Option<string>): PeerPlan {
    var endpoint := if relay == Some("") then None else relay;
    PeerPlan(p.id, p.publicKey, endpoint, [p.ipv4 + "/32", p.ipv6 + "/128"], endpoint.Some?)
  }

  /** `planFor`, with the relay endpoint already resolved. */
  function PlanFor(node: MeshNode, all: seq<MeshNode>, relay: Option<string>): seq<PeerPlan> {
    if all == [] then []
    else (if Eligible(node, all[0]) then [PeerFor(all[0], relay)] else []) + PlanFor(node, all[1..], relay)
  }

  lemma {:induction false} PlanListsEligible(node: MeshNode, all: seq<MeshNode>, relay: Option<string>, peer: PeerPlan)
    ensures peer in PlanFor(node, all, relay) <==>
      exists p :: p in all && Eligible(node, p) && peer == PeerFor(p, relay)
  {
    if all != [] {
      PlanListsEligible(node, all[1..], relay, peer);
      assert forall p :: p in all <==> p == all[0] || p in all[1..];
    }
  }

  /** Forensic isolation talks to administration only; development does not reach for production data. */
  predicate MayPeer(from: string, to: string) {
    if "ZONE_FORENSIC_ISOLATION" in {from, to} then {from, to} == {"ZONE_FORENSIC_ISOLATION", "ZONE_ADMIN_MGMT"}
    else (from, to) != ("ZONE_DEV", "ZONE_PROD_DATA")
  }

  /** The peer entry that describes a node: its key, its two addresses, and the relay if there is one. */
  predicate Describes(peer: PeerPlan, p: MeshNode, relay: Option<string>) {
    && peer.nodeId == p.id && peer.publicKey == p.publicKey
    && peer.allowedIps == [p.ipv4 + "/32", p.ipv6 + "/128"]
    && (if relay in {None, Some("")} then peer.endpoint == None && !peer.relayed
        else peer.endpoint == relay && peer.relayed)
  }

  lemma ZonesDiffer()
    ensures "ZONE_FORENSIC_ISOLATION" != "ZONE_ADMIN_MGMT"
  {
    assert |"ZONE_FORENSIC_ISOLATION"| == 23 && |"ZONE_ADMIN_MGMT"| == 15;
  }

  lemma AllowedIsMayPeer(from: string, to: string)
    ensures Allowed(from, to) <==> MayPeer(from, to)
  {
    ZonesDiffer();
    if from == "ZONE_FORENSIC_ISOLATION" || to == "ZONE_FORENSIC_ISOLATION" {
      assert from in {from, to} && to in {from, to};
      assert MayPeer(from, to) ==> "ZONE_ADMIN_MGMT" in {from, to};
    }
  }

  /** The plan describes exactly the active nodes other than this one whose zone this node's zone may peer with. */
  lemma {:induction false} PlanMeaning(node: MeshNode, all: seq<MeshNode>, relay: Option<string>, peer: PeerPlan)
    ensures peer in PlanFor(node, all, relay) <==>
      exists p :: p in all && p.active && p.id != node.id && MayPeer(node.zone, p.zone) && Describes(peer, p, relay)
  {
    PlanListsEligible(node, all, relay, peer);
    forall p | p in all
      ensures Eligible(node, p) <==> p.active && p.id != node.id && MayPeer(node.zone, p.zone)
      ensures peer == PeerFor(p, relay) <==> Describes(peer, p, relay)
    {
      AllowedIsMayPeer(node.zone, p.zone);
    }
  }

  predicate Lists(plan: seq<PeerPlan>, id: string) {
    exists i :: 0 <= i < |plan| && plan[i].nodeId == id
  }

  lemma PlanLists(node: MeshNode, all: seq<MeshNode>, relay: Option<string>, other: MeshNode)
    requires other in all && forall p :: p in all && p.id == other.id ==> p == other
    ensures Lists(PlanFor(node, all, relay), other.id) <==> Eligible(node, other)
  {
    var plan := PlanFor(node, all, relay);
    if Lists(plan, other.id) {
      var i :| 0 <= i < |plan| && plan[i].nodeId == other.id;
      PlanListsEligible(node, all, relay, plan[i]);
    }
    if Eligible(node, other) {
      PlanListsEligible(node, all, relay, PeerFor(other, relay));
      var i :| 0 <= i < |plan| && plan[i] == PeerFor(other, relay);
      assert plan[i].nodeId == other.id;
    }
  }

  /** The one pair of zones whose plans disagree: production data lists development, which does not list it back. */
  predicate OneSided(a: string, b: string) {
    (a == "ZONE_DEV" && b == "ZONE_PROD_DATA") || (a == "ZONE_PROD_DATA" && b == "ZONE_DEV")
  }

  /** Two active nodes list each other, or neither does, exactly when their zones are not that pair. */
  lemma PeeringMutualIff(a: MeshNode, b: MeshNode, all: seq<MeshNode>, relayA: Option<string>, relayB: Option<string>)
    requires a in all && b in all && a.active && b.active && a.id != b.id
    requires forall p, q :: p in all && q in all && p.id == q.id ==> p == q
    ensures (Lists(PlanFor(a, all, relayA), b.id) <==> Lists(PlanFor(b, all, relayB), a.id))
      <==> !OneSided(a.zone, b.zone)
  {
    PlanLists(a, all, relayA, b);
    PlanLists(b, all, relayB, a);
    assert |"ZONE_DEV"| == 8 && |"ZONE_PROD_DATA"| == 14 && |"ZONE_FORENSIC_ISOLATION"| == 23;
  }

  function PeerJson(p: PeerPlan): Json {
    Obj([Entry("publicKey", Str(p.publicKey)), Entry("allowedIps", Strings(p.allowedIps)),
         Entry("keepaliveSeconds", Number("25"))]
        + (if p.endpoint.Some? then [Entry("endpoint", Str(p.endpoint.value))] else []))
  }

  /** `applyPeersPayload`. */
  function PeersJson(ps: seq<PeerPlan>): Json {
    Arr(seq(|ps|, i requires 0 <= i < |ps| => PeerJson(ps[i])))
  }

  lemma PeersJsonWellFormed(ps: seq<PeerPlan>)
    ensures WellFormed(PeersJson(ps))
  {
    assert |"publicKey"| == 9 && |"allowedIps"| == 10 && |"keepaliveSeconds"| == 16 && |"endpoint"| == 8;
    forall i | 0 <= i < |ps|
      ensures WellFormed(PeersJson(ps).items[i])
    {
      var es := PeerJson(ps[i]).entries;
      assert forall k :: 0 <= k < |es| ==> WellFormed(es[k].value);
    }
  }

  // ---------------------------------------------------------------- what a node reads

  /** A peer on the wire, its fields being looked up by name. */
  predicate PeerReads(v: Json, p: PeerPlan) {
    && Field(v, "publicKey") == Some(Str(p.publicKey))
    && Field(v, "allowedIps") == Some(Strings(p.allowedIps))
    && Field(v, "keepaliveSeconds").Some? && ReadsAs(Field(v, "keepaliveSeconds").value, 25)
    && Field(v, "endpoint") == match p.endpoint case None => None case Some(e) => Some(Str(e))
  }

  lemma FoundAt(sent: seq<Entry>, w: Json, i: nat) returns (j: nat)
    requires Equivalent(Obj(sent), w) && i < |sent|
    ensures j < |w.entries| && w.entries[j].key == sent[i].key
  {
    assert HasField(sent[i], w.entries);
    j :| j < |w.entries| && w.entries[j].key == sent[i].key;
  }

  /** A value with the same number of fields as were sent has no others. */
  lemma NoOtherField(sent: seq<Entry>, w: Json, key: string)
    requires Equivalent(Obj(sent), w) && |sent| == 3 && DistinctKeys(sent)
    requires forall i :: 0 <= i < 3 ==> sent[i].key != key
    ensures Field(w, key) == None
  {
    var i := FoundAt(sent, w, 0);
    var j := FoundAt(sent, w, 1);
    var k := FoundAt(sent, w, 2);
    assert i != j && j != k && i != k;
    LookupMissing(w.entries, key);
  }

  lemma KeepaliveReads(w: Json)
    requires Equivalent(Number("25"), w)
    ensures ReadsAs(w, 25)
  {
    assert "25"[..1] == "2" && "2"[..0] == "";
  }

  lemma PeerFieldsArrive(p: PeerPlan, w: Json)
    requires Equivalent(PeerJson(p), w) && WellFormed(w)
    ensures Field(w, "publicKey") == Some(Str(p.publicKey))
    ensures Field(w, "allowedIps").Some? && Equivalent(Strings(p.allowedIps), Field(w, "allowedIps").value)
    ensures Field(w, "keepaliveSeconds").Some? && Equivalent(Number("25"), Field(w, "keepaliveSeconds").value)
    ensures p.endpoint.Some? ==> Field(w, "endpoint") == Some(Str(p.endpoint.value))
  {
    var es := PeerJson(p).entries;
    FieldArrives(es, w, 0);
    FieldArrives(es, w, 1);
    FieldArrives(es, w, 2);
    if p.endpoint.Some? {
      FieldArrives(es, w, 3);
    }
  }

  lemma NoEndpointArrives(p: PeerPlan, w: Json)
    requires Equivalent(PeerJson(p), w) && p.endpoint == None
    ensures Field(w, "endpoint") == None
  {
    assert |"publicKey"| == 9 && |"allowedIps"| == 10 && |"keepaliveSeconds"| == 16 && |"endpoint"| == 8;
    NoOtherField(PeerJson(p).entries, w, "endpoint");
  }

  lemma PeerArrives(p: PeerPlan, w: Json)
    requires Equivalent(PeerJson(p), w) && WellFormed(w)
    ensures PeerReads(w, p)
  {
    PeerFieldsArrive(p, w);
    StringsArrive(p.allowedIps, Field(w, "allowedIps").value, "");
    KeepaliveReads(Field(w, "keepaliveSeconds").value);
    if p.endpoint == None {
      NoEndpointArrives(p, w);
    }
  }

  /** The peer list a node reads, whatever happened to the order of its keys, is the plan, peer by peer. */
  lemma PeersArrive(ps: seq<PeerPlan>, w: Json)
    requires Equivalent(PeersJson(ps), w) && WellFormed(w)
    ensures w.Arr? && |w.items| == |ps| && forall k :: 0 <= k < |ps| ==> PeerReads(w.items[k], ps[k])
  {
    forall k | 0 <= k < |ps|
      ensures PeerReads(w.items[k], ps[k])
    {
      assert Equivalent(PeersJson(ps).items[k], w.items[k]);
      PeerArrives(ps[k], w.items[k]);
    }
  }
}
