/**
 Network policies: the access decision (src/application/policy.ts), the compiled rule document
 (src/application/policy-compiler.ts) and the firewall rules pushed to nodes (src/infrastructure/pg-policy-enforcer.ts).
 */
module Policy {
  import opened CanonicalJson
  import opened StableSort
  import opened Wire
  import opened Wrappers

  datatype Action = ALLOW | DENY | ISOLATE

  datatype NetworkPolicy = NetworkPolicy(
    id: string, name: string, sourceZones: seq<string>, destinationZones: seq<string>, protocols: seq<string>,
    destinationPorts: seq<int>, action: Action, requiredRoles: seq<string>, requiresJit: bool,
    priority: int, active: bool)

  /** A flow to decide: source zone, destination, protocol, and a port when there is one. */
  datatype Flow = Flow(sourceZone: string, zone: string, protocol: string, port: Option<int>)

  /** Who asks: roles held, and whether an active just-in-time grant covers the resource. */
  datatype Subject = Subject(mfa: bool, deviceTrusted: bool, nodeActive: bool, roles: set<string>, hasJit: bool)

  datatype Decision = Decision(action: Action, policyId: Option<string>, reason: string)

  const ZONES: set<string> :=
    {"ZONE_PROD_DATA", "ZONE_PROD_APP", "ZONE_STAGING", "ZONE_DEV", "ZONE_ADMIN_MGMT", "ZONE_FORENSIC_ISOLATION"}

  // ---------------------------------------------------------------- deciding

  predicate FlowMatches(sources: seq<string>, zones: seq<string>, protocols: seq<string>, ports: seq<int>, f: Flow) {
    && f.sourceZone in sources
    && f.zone in zones
    && ("ANY" in protocols || f.protocol in protocols)
    && (f.port == None || f.port == Some(0) || ports == [] || f.port.value in ports)
  }

  predicate Matches(p: NetworkPolicy, f: Flow, roles: set<string>) {
    && FlowMatches(p.sourceZones, p.destinationZones, p.protocols, p.destinationPorts, f)
    && forall r :: r in p.requiredRoles ==> r in roles
  }

  function ByPriority(): (NetworkPolicy, NetworkPolicy) -> bool {
    (a: NetworkPolicy, b: NetworkPolicy) => a.priority > b.priority
  }

  function FirstMatch(ps: seq<NetworkPolicy>, f: Flow, roles: set<string>): Option<NetworkPolicy> {
    if ps == [] then None
    else if Matches(ps[0], f, roles) then Some(ps[0])
    else FirstMatch(ps[1..], f, roles)
  }

  function Verdict(winner: Option<NetworkPolicy>, s: Subject): Action {
    if winner.None? then DENY
    else if winner.value.requiresJit && !s.hasJit then DENY
    else winner.value.action
  }

  predicate Admitted(s: Subject) {
    s.mfa && s.deviceTrusted && s.nodeActive
  }

  /** The action `decide` settles on, given the active policies in repository order. */
  function DecidedAction(ps: seq<NetworkPolicy>, f: Flow, s: Subject): Action {
    if Admitted(s) then Verdict(FirstMatch(Sort(ps, ByPriority()), f, s.roles), s) else DENY
  }

  function DecidedPolicy(ps: seq<NetworkPolicy>, f: Flow, s: Subject): Option<string> {
    var winner := FirstMatch(Sort(ps, ByPriority()), f, s.roles);
    if Admitted(s) && winner.Some? then Some(winner.value.id) else None
  }

  function DecidedReason(ps: seq<NetworkPolicy>, f: Flow, s: Subject): string {
    var winner := FirstMatch(Sort(ps, ByPriority()), f, s.roles);
    if !s.mfa then "MFA required"
    else if !Admitted(s) then "device is not trusted"
    else if winner.None? then "default deny"
    else if winner.value.requiresJit && !s.hasJit then "active JIT grant required"
    else "policy " + winner.value.name
  }

  /** `decide`: walks the policies in priority order and stops at the first that matches. */
  method Decide(listActive: seq<NetworkPolicy>, f: Flow, s: Subject) returns (d: Decision)
    ensures d.action == DecidedAction(listActive, f, s)
    ensures d.policyId == DecidedPolicy(listActive, f, s)
    ensures d.reason == DecidedReason(listActive, f, s)
    ensures d.action == ALLOW <==> Grants(listActive, f, s, ALLOW)
    ensures d.action == ISOLATE <==> Grants(listActive, f, s, ISOLATE)
    ensures !s.mfa ==> d == Decision(DENY, None, "MFA required")
    ensures s.mfa && !(s.deviceTrusted && s.nodeActive) ==> d == Decision(DENY, None, "device is not trusted")
  {
    DecidedIff(listActive, f, s, ALLOW);
    DecidedIff(listActive, f, s, ISOLATE);
    d := Decision(DENY, None, "default deny");
    if !s.mfa {
      d := d.(reason := "MFA required");
    } else if !s.deviceTrusted || !s.nodeActive {
      d := d.(reason := "device is not trusted");
    } else {
      var policies := Sort(listActive, ByPriority());
      for i := 0 to |policies|
        invariant d == Decision(DENY, None, "default deny")
        invariant FirstMatch(policies, f, s.roles) == FirstMatch(policies[i..], f, s.roles)
      {
        var p := policies[i];
        if Matches(p, f, s.roles) {
          d := Decision(p.action, Some(p.id), "policy " + p.name);
          if p.requiresJit && !s.hasJit {
            d := d.(action := DENY, reason := "active JIT grant required");
          }
          return;
        }
      }
    }
  }

  // ---------------------------------------------------------------- what deciding means

  /** A policy covers a flow asked for by a holder of roles: what each of its fields has to say. */
  ghost predicate Covers(p: NetworkPolicy, f: Flow, roles: set<string>) {
    && f.sourceZone in p.sourceZones
    && f.zone in p.destinationZones
    && (f.protocol in p.protocols || "ANY" in p.protocols)
    && (f.port in {None, Some(0)} || p.destinationPorts == [] || f.port.value in p.destinationPorts)
    && (set r | r in p.requiredRoles) <= roles
  }

  predicate RanksBefore(ps: seq<NetworkPolicy>, j: nat, i: nat)
    requires i < |ps| && j < |ps|
  {
    ps[j].priority > ps[i].priority || (ps[j].priority == ps[i].priority && j < i)
  }

  /** Policy `i` covers the flow and no policy that covers it ranks before it. */
  ghost predicate Governs(ps: seq<NetworkPolicy>, f: Flow, roles: set<string>, i: nat) {
    && i < |ps| && Covers(ps[i], f, roles)
    && forall j :: 0 <= j < |ps| && Covers(ps[j], f, roles) ==> !RanksBefore(ps, j, i)
  }

  /** The access control promised: a trusted, authenticated subject whose governing policy takes this action. */
  ghost predicate Grants(ps: seq<NetworkPolicy>, f: Flow, s: Subject, action: Action) {
    && s.mfa && s.deviceTrusted && s.nodeActive
    && exists i: nat :: Governs(ps, f, s.roles, i) && ps[i].action == action && (ps[i].requiresJit ==> s.hasJit)
  }

  /** Position `i` holds the matching policy of highest priority, the earliest one among equals. */
  ghost predicate Wins(ps: seq<NetworkPolicy>, f: Flow, roles: set<string>, i: nat) {
    && i < |ps| && Matches(ps[i], f, roles)
    && forall j :: 0 <= j < |ps| && Matches(ps[j], f, roles) ==>
         ps[j].priority < ps[i].priority || (ps[j].priority == ps[i].priority && i <= j)
  }

  function Better(p: NetworkPolicy, rest: Option<NetworkPolicy>, f: Flow, roles: set<string>): Option<NetworkPolicy> {
    if Matches(p, f, roles) && (rest.None? || rest.value.priority <= p.priority) then Some(p) else rest
  }

  lemma {:induction false} FirstMatchIn(ps: seq<NetworkPolicy>, f: Flow, roles: set<string>)
    ensures FirstMatch(ps, f, roles).Some? ==> FirstMatch(ps, f, roles).value in ps
    ensures FirstMatch(ps, f, roles).Some? ==> Matches(FirstMatch(ps, f, roles).value, f, roles)
    ensures FirstMatch(ps, f, roles).None? <==> forall p :: p in ps ==> !Matches(p, f, roles)
  {
    if ps != [] {
      FirstMatchIn(ps[1..], f, roles);
      assert forall p :: p in ps <==> p == ps[0] || p in ps[1..];
    }
  }

  lemma {:induction false} FirstMatchInsert(p: NetworkPolicy, s: seq<NetworkPolicy>, f: Flow, roles: set<string>)
    requires Sorted(s, ByPriority())
    ensures FirstMatch(Insert(p, s, ByPriority()), f, roles) == Better(p, FirstMatch(s, f, roles), f, roles)
  {
    if s == [] || !ByPriority()(s[0], p) {
      assert ([p] + s)[1..] == s;
      FirstMatchIn(s, f, roles);
    } else {
      var t := Insert(p, s[1..], ByPriority());
      assert ([s[0]] + t)[1..] == t;
      FirstMatchInsert(p, s[1..], f, roles);
    }
  }

  lemma ByPriorityIsWeakOrder()
    ensures WeakOrder(ByPriority())
  {
  }

  lemma {:induction false} FirstMatchWins(ps: seq<NetworkPolicy>, f: Flow, roles: set<string>)
      returns (w: Option<nat>)
    ensures w.None? ==> FirstMatch(Sort(ps, ByPriority()), f, roles) == None
    ensures w.None? ==> forall j :: 0 <= j < |ps| ==> !Matches(ps[j], f, roles)
    ensures w.Some? ==> Wins(ps, f, roles, w.value)
    ensures w.Some? ==> FirstMatch(Sort(ps, ByPriority()), f, roles) == Some(ps[w.value])
  {
    if ps == [] {
      return None;
    }
    var rest := FirstMatchWins(ps[1..], f, roles);
    ByPriorityIsWeakOrder();
    SortSorts(ps[1..], ByPriority());
    FirstMatchInsert(ps[0], Sort(ps[1..], ByPriority()), f, roles);
    if Matches(ps[0], f, roles) && (rest.None? || ps[1..][rest.value].priority <= ps[0].priority) {
      w := Some(0);
      forall j | 0 <= j < |ps| && Matches(ps[j], f, roles)
        ensures ps[j].priority <= ps[0].priority
      {
        if j > 0 {
          assert ps[j] == ps[1..][j - 1];
        }
      }
    } else if rest.Some? {
      w := Some(rest.value + 1);
      forall j | 0 <= j < |ps| && Matches(ps[j], f, roles)
        ensures ps[j].priority < ps[rest.value + 1].priority
             || (ps[j].priority == ps[rest.value + 1].priority && rest.value + 1 <= j)
      {
        if j > 0 {
          assert ps[j] == ps[1..][j - 1];
        }
      }
    } else {
      w := None;
      forall j | 0 <= j < |ps|
        ensures !Matches(ps[j], f, roles)
      {
        if j > 0 {
          assert ps[j] == ps[1..][j - 1];
        }
      }
    }
  }

  /** The decision is the winner's verdict, and there is at most one winner. */
  lemma DecisionFollowsWinner(ps: seq<NetworkPolicy>, f: Flow, s: Subject, i: nat)
    requires Admitted(s) && Wins(ps, f, s.roles, i)
    ensures DecidedAction(ps, f, s) == Verdict(Some(ps[i]), s)
    ensures DecidedPolicy(ps, f, s) == Some(ps[i].id)
    ensures FirstMatch(Sort(ps, ByPriority()), f, s.roles) == Some(ps[i])
  {
    var w := FirstMatchWins(ps, f, s.roles);
    assert Matches(ps[i], f, s.roles);
    assert w == Some(i);
  }

  lemma CoversIsMatches(p: NetworkPolicy, f: Flow, roles: set<string>)
    ensures Covers(p, f, roles) <==> Matches(p, f, roles)
  {
    if Covers(p, f, roles) {
      forall r | r in p.requiredRoles
        ensures r in roles
      {
        assert r in (set x | x in p.requiredRoles);
      }
    }
  }

  lemma GovernsIsWins(ps: seq<NetworkPolicy>, f: Flow, roles: set<string>, i: nat)
    ensures Governs(ps, f, roles, i) <==> Wins(ps, f, roles, i)
  {
    forall j | 0 <= j < |ps|
      ensures Covers(ps[j], f, roles) <==> Matches(ps[j], f, roles)
    {
      CoversIsMatches(ps[j], f, roles);
    }
  }

  /** ALLOW and ISOLATE are decided exactly when the governing policy grants them; a governing policy is named. */
  lemma DecidedIff(ps: seq<NetworkPolicy>, f: Flow, s: Subject, action: Action)
    requires action != DENY
    ensures DecidedAction(ps, f, s) == action <==> Grants(ps, f, s, action)
  {
    if Admitted(s) {
      var w := FirstMatchWins(ps, f, s.roles);
      if w.Some? {
        GovernsIsWins(ps, f, s.roles, w.value);
      }
      if Grants(ps, f, s, action) {
        var i: nat :| Governs(ps, f, s.roles, i) && ps[i].action == action && (ps[i].requiresJit ==> s.hasJit);
        GovernsIsWins(ps, f, s.roles, i);
        DecisionFollowsWinner(ps, f, s, i);
      }
    }
  }

  /** The decision names the governing policy and says why; it names none exactly when nothing covers the flow. */
  lemma DecidedPolicyIff(ps: seq<NetworkPolicy>, f: Flow, s: Subject)
    requires Admitted(s)
    ensures forall i: nat :: Governs(ps, f, s.roles, i) ==> DecidedPolicy(ps, f, s) == Some(ps[i].id)
    ensures DecidedPolicy(ps, f, s) == None <==> forall i :: 0 <= i < |ps| ==> !Covers(ps[i], f, s.roles)
    ensures forall i: nat :: Governs(ps, f, s.roles, i) ==>
      DecidedReason(ps, f, s)
      == if ps[i].requiresJit && !s.hasJit then "active JIT grant required" else "policy " + ps[i].name
    ensures (forall i :: 0 <= i < |ps| ==> !Covers(ps[i], f, s.roles)) ==> DecidedReason(ps, f, s) == "default deny"
  {
    forall i: nat | Governs(ps, f, s.roles, i)
      ensures DecidedPolicy(ps, f, s) == Some(ps[i].id)
      ensures DecidedReason(ps, f, s)
           == if ps[i].requiresJit && !s.hasJit then "active JIT grant required" else "policy " + ps[i].name
    {
      GovernsIsWins(ps, f, s.roles, i);
      DecisionFollowsWinner(ps, f, s, i);
    }
    forall i | 0 <= i < |ps|
      ensures Covers(ps[i], f, s.roles) <==> Matches(ps[i], f, s.roles)
    {
      CoversIsMatches(ps[i], f, s.roles);
    }
    var w := FirstMatchWins(ps, f, s.roles);
  }

  /** The matching policies that no matching policy outranks. */
  ghost predicate IsTop(ps: seq<NetworkPolicy>, f: Flow, roles: set<string>, p: NetworkPolicy) {
    p in ps && Matches(p, f, roles) && forall q :: q in ps && Matches(q, f, roles) ==> q.priority <= p.priority
  }

  ghost predicate SameVerdictOnTop(ps: seq<NetworkPolicy>, f: Flow, s: Subject) {
    forall p, q :: IsTop(ps, f, s.roles, p) && IsTop(ps, f, s.roles, q) ==> Verdict(Some(p), s) == Verdict(Some(q), s)
  }

  lemma TopPolicyDecides(ps: seq<NetworkPolicy>, f: Flow, s: Subject, p: NetworkPolicy, rest: seq<NetworkPolicy>)
    requires Admitted(s) && IsTop(ps, f, s.roles, p) && multiset([p] + rest) == multiset(ps)
    ensures DecidedAction([p] + rest, f, s) == Verdict(Some(p), s)
  {
    var qs := [p] + rest;
    SameMembers(qs, ps);
    forall j | 0 <= j < |qs| && Matches(qs[j], f, s.roles)
      ensures qs[j].priority <= p.priority
    {
      assert qs[j] in ps;
    }
    DecisionFollowsWinner(qs, f, s, 0);
  }

  lemma WinnerIsTop(ps: seq<NetworkPolicy>, qs: seq<NetworkPolicy>, f: Flow, s: Subject)
    returns (p: Option<NetworkPolicy>)
    requires Admitted(s) && multiset(ps) == multiset(qs)
    ensures p.Some? ==> IsTop(ps, f, s.roles, p.value) && DecidedAction(qs, f, s) == Verdict(p, s)
    ensures p.None? ==> DecidedAction(qs, f, s) == DENY && forall q :: q in ps ==> !Matches(q, f, s.roles)
  {
    var w := FirstMatchWins(qs, f, s.roles);
    SameMembers(ps, qs);
    if w.Some? {
      p := Some(qs[w.value]);
      forall q | q in ps && Matches(q, f, s.roles)
        ensures q.priority <= p.value.priority
      {
        var j :| 0 <= j < |qs| && qs[j] == q;
        assert Matches(qs[j], f, s.roles);
      }
    } else {
      p := None;
      forall q | q in ps
        ensures !Matches(q, f, s.roles)
      {
        var j :| 0 <= j < |qs| && qs[j] == q;
      }
    }
  }

  ghost predicate OrderIndependent(ps: seq<NetworkPolicy>, f: Flow, s: Subject) {
    forall qs: seq<NetworkPolicy> :: multiset(qs) == multiset(ps) ==> DecidedAction(qs, f, s) == DecidedAction(ps, f, s)
  }

  /**
   The order in which the repository returns the policies is immaterial to a flow exactly when all matching policies
   of the highest matching priority agree on the verdict; distinct priorities are a special case.
   */
  lemma OrderIndependentIff(ps: seq<NetworkPolicy>, f: Flow, s: Subject)
    requires Admitted(s)
    ensures OrderIndependent(ps, f, s) <==> SameVerdictOnTop(ps, f, s)
  {
    if SameVerdictOnTop(ps, f, s) {
      var p := WinnerIsTop(ps, ps, f, s);
      forall qs: seq<NetworkPolicy> | multiset(qs) == multiset(ps)
        ensures DecidedAction(qs, f, s) == DecidedAction(ps, f, s)
      {
        var q := WinnerIsTop(ps, qs, f, s);
        assert p.Some? ==> IsTop(ps, f, s.roles, p.value);
        assert q.Some? ==> IsTop(ps, f, s.roles, q.value);
      }
    } else {
      var p, q :| IsTop(ps, f, s.roles, p) && IsTop(ps, f, s.roles, q) && Verdict(Some(p), s) != Verdict(Some(q), s);
      var withoutP := Without(ps, p);
      var withoutQ := Without(ps, q);
      TopPolicyDecides(ps, f, s, p, withoutP);
      TopPolicyDecides(ps, f, s, q, withoutQ);
    }
  }

  lemma DistinctPrioritiesDecideAlike(ps: seq<NetworkPolicy>, qs: seq<NetworkPolicy>, f: Flow, s: Subject)
    requires NoTies(ps, ByPriority()) && multiset(ps) == multiset(qs)
    ensures DecidedAction(ps, f, s) == DecidedAction(qs, f, s)
  {
    if Admitted(s) {
      forall p, q | IsTop(ps, f, s.roles, p) && IsTop(ps, f, s.roles, q)
        ensures p == q
      {
        assert p == q || ByPriority()(p, q) || ByPriority()(q, p);
      }
      OrderIndependentIff(ps, f, s);
    }
  }

  // ---------------------------------------------------------------- compiling

  datatype IrRule = IrRule(
    id: string, source: seq<string>, destination: seq<string>, protocols: seq<string>, ports: seq<int>, action: Action)

  predicate ValidPolicy(p: NetworkPolicy) {
    && (forall z :: z in p.sourceZones ==> z in ZONES)
    && (forall z :: z in p.destinationZones ==> z in ZONES)
    && (forall n :: n in p.destinationPorts ==> 1 <= n <= 65535)
  }

  function ToRule(p: NetworkPolicy): IrRule {
    IrRule(p.id, p.sourceZones, p.destinationZones, p.protocols, p.destinationPorts, p.action)
  }

  function OnlyActive(ps: seq<NetworkPolicy>): seq<NetworkPolicy> {
    if ps == [] then []
    else (if ps[0].active then [ps[0]] else []) + OnlyActive(ps[1..])
  }

  /** The validating map over the sorted active policies; `None` is the thrown validation error. */
  function Rules(ps: seq<NetworkPolicy>): Option<seq<IrRule>> {
    if ps == [] then Some([])
    else if !ValidPolicy(ps[0]) then None
    else
      var rest :- Rules(ps[1..]);
      Some([ToRule(ps[0])] + rest)
  }

  function Compile(ps: seq<NetworkPolicy>): Option<seq<IrRule>> {
    Rules(Sort(OnlyActive(ps), ByPriority()))
  }

  /** First-match reading of a compiled document, denying by default. */
  function RulesAction(rules: seq<IrRule>, f: Flow): Action {
    if rules == [] then DENY
    else if FlowMatches(rules[0].source, rules[0].destination, rules[0].protocols, rules[0].ports, f) then
      rules[0].action
    else RulesAction(rules[1..], f)
  }

  lemma {:induction false} OnlyActiveMembers(ps: seq<NetworkPolicy>)
    ensures forall p :: p in OnlyActive(ps) <==> p in ps && p.active
  {
    if ps != [] {
      OnlyActiveMembers(ps[1..]);
      assert forall p :: p in ps <==> p == ps[0] || p in ps[1..];
    }
  }

  lemma {:induction false} RulesRejects(ps: seq<NetworkPolicy>)
    ensures Rules(ps).None? <==> exists p :: p in ps && !ValidPolicy(p)
  {
    if ps != [] {
      RulesRejects(ps[1..]);
      assert forall p :: p in ps <==> p == ps[0] || p in ps[1..];
    }
  }

  ghost predicate NamesUnknown(p: NetworkPolicy) {
    || (exists z :: z in p.sourceZones + p.destinationZones && z !in ZONES)
    || (exists n :: n in p.destinationPorts && (n < 1 || n > 65535))
  }

  /** Compilation fails exactly when some active policy names an unknown zone or a port out of range. */
  lemma CompileRejectsExactlyInvalid(ps: seq<NetworkPolicy>)
    ensures Compile(ps).None? <==> exists p :: p in ps && p.active && NamesUnknown(p)
  {
    assert forall p :: NamesUnknown(p) <==> !ValidPolicy(p) by {
      forall p
        ensures NamesUnknown(p) <==> !ValidPolicy(p)
      {
        assert forall z :: z in p.sourceZones + p.destinationZones <==> z in p.sourceZones || z in p.destinationZones;
      }
    }
    OnlyActiveMembers(ps);
    SortPermutes(OnlyActive(ps), ByPriority());
    var sorted := Sort(OnlyActive(ps), ByPriority());
    RulesRejects(sorted);
    assert forall p :: p in sorted <==> p in ps && p.active;
  }

  /** The subject holds what every policy may ask of it; always so when no policy asks for roles or a grant. */
  ghost predicate Entitled(ps: seq<NetworkPolicy>, s: Subject) {
    forall p :: p in ps ==> (forall r :: r in p.requiredRoles ==> r in s.roles) && (p.requiresJit ==> s.hasJit)
  }

  lemma {:induction false} RulesKeepMeaning(ps: seq<NetworkPolicy>, f: Flow, s: Subject)
    requires Rules(ps).Some? && Entitled(ps, s)
    ensures RulesAction(Rules(ps).value, f) == Verdict(FirstMatch(ps, f, s.roles), s)
  {
    if ps != [] {
      var rest := Rules(ps[1..]).value;
      assert ([ToRule(ps[0])] + rest)[1..] == rest;
      assert Entitled(ps[1..], s);
      RulesKeepMeaning(ps[1..], f, s);
      assert ps[0] in ps;
    }
  }

  /** The compiled document read first-match decides every flow as `decide` does for an admitted, entitled subject. */
  lemma CompiledMeaning(ps: seq<NetworkPolicy>, f: Flow, s: Subject)
    requires Admitted(s) && Entitled(ps, s) && Compile(ps).Some?
    ensures RulesAction(Compile(ps).value, f) == DecidedAction(OnlyActive(ps), f, s)
  {
    OnlyActiveMembers(ps);
    SortPermutes(OnlyActive(ps), ByPriority());
    RulesKeepMeaning(Sort(OnlyActive(ps), ByPriority()), f, s);
  }

  // ---------------------------------------------------------------- firewall rules

  datatype FirewallRule = FirewallRule(
    id: string, allow: bool, protocols: seq<string>, ports: seq<int>, sourceZones: seq<string>,
    destinationZones: seq<string>)

  /** `firewallRulesFor`: one rule per policy in list order; ISOLATE is treated as DENY. */
  function FirewallRulesFor(ps: seq<NetworkPolicy>): seq<FirewallRule> {
    if ps == [] then []
    else [FirewallRule(ps[0].id, ps[0].action == ALLOW, ps[0].protocols, ps[0].destinationPorts,
                       ps[0].sourceZones, ps[0].destinationZones)] + FirewallRulesFor(ps[1..])
  }

  function FirewallAllows(rules: seq<FirewallRule>, f: Flow): bool {
    if rules == [] then false
    else if FlowMatches(rules[0].sourceZones, rules[0].destinationZones, rules[0].protocols, rules[0].ports, f)
    then rules[0].allow
    else FirewallAllows(rules[1..], f)
  }

  lemma {:induction false} FirewallKeepsVerdict(ps: seq<NetworkPolicy>, f: Flow, s: Subject)
    requires Entitled(ps, s)
    ensures FirewallAllows(FirewallRulesFor(ps), f) <==> Verdict(FirstMatch(ps, f, s.roles), s) == ALLOW
  {
    if ps != [] {
      var rules := FirewallRulesFor(ps);
      assert rules[1..] == FirewallRulesFor(ps[1..]);
      assert Entitled(ps[1..], s);
      FirewallKeepsVerdict(ps[1..], f, s);
      assert ps[0] in ps;
    }
  }

  lemma {:induction false} SortOfSorted<T(!new)>(s: seq<T>, lt: (T, T) -> bool)
    requires Sorted(s, lt)
    ensures Sort(s, lt) == s
  {
    if s != [] {
      SortOfSorted(s[1..], lt);
      assert s == [s[0]] + s[1..];
      if |s| > 1 {
        assert s[1..][0] == s[1];
      }
    }
  }

  /** On a list in descending priority, as the repository returns it, the firewall allows what `decide` allows. */
  lemma FirewallMeaning(ps: seq<NetworkPolicy>, f: Flow, s: Subject)
    requires Admitted(s) && Entitled(ps, s) && Sorted(ps, ByPriority())
    ensures FirewallAllows(FirewallRulesFor(ps), f) <==> DecidedAction(ps, f, s) == ALLOW
  {
    SortOfSorted(ps, ByPriority());
    FirewallKeepsVerdict(ps, f, s);
  }

  // ---------------------------------------------------------------- the hashed form

  function FirewallRuleJson(r: FirewallRule): Json {
    Obj([Entry("id", Str(r.id)), Entry("action", Str(if r.allow then "ALLOW" else "DENY")),
         Entry("protocols", Strings(r.protocols)), Entry("ports", Ints(r.ports)),
         Entry("sourceZones", Strings(r.sourceZones)), Entry("destinationZones", Strings(r.destinationZones))])
  }

  /** The rule list as it travels in a command payload. */
  function RulesJson(ps: seq<NetworkPolicy>): Json {
    var rules := FirewallRulesFor(ps);
    Arr(seq(|rules|, i requires 0 <= i < |rules| => FirewallRuleJson(rules[i])))
  }

  lemma FirewallRuleJsonWellFormed(r: FirewallRule)
    ensures WellFormed(FirewallRuleJson(r))
  {
    var es := FirewallRuleJson(r).entries;
    assert |"id"| == 2 && |"action"| == 6 && |"protocols"| == 9 && |"ports"| == 5 && |"sourceZones"| == 11
        && |"destinationZones"| == 16;
    IntsWellFormed(r.ports);
  }

  lemma RulesJsonWellFormed(ps: seq<NetworkPolicy>)
    ensures WellFormed(RulesJson(ps))
  {
    var rules := FirewallRulesFor(ps);
    forall i | 0 <= i < |rules|
      ensures WellFormed(RulesJson(ps).items[i])
    {
      FirewallRuleJsonWellFormed(rules[i]);
    }
  }

  // ---------------------------------------------------------------- what a node reads

  /** A rule on the wire matches a flow, its fields being looked up by name. */
  predicate RuleMatches(rule: Json, f: Flow) {
    && ListsText(Field(rule, "sourceZones"), f.sourceZone)
    && ListsText(Field(rule, "destinationZones"), f.zone)
    && (ListsText(Field(rule, "protocols"), f.protocol) || ListsText(Field(rule, "protocols"), "ANY"))
    && (f.port in {None, Some(0)} || Field(rule, "ports") == Some(Arr([]))
        || ListsNumber(Field(rule, "ports"), f.port.value))
  }

  function FirstRule(items: seq<Json>, f: Flow): Option<Json> {
    if items == [] then None else if RuleMatches(items[0], f) then Some(items[0]) else FirstRule(items[1..], f)
  }

  /** First match, denying by default. */
  predicate WireAllows(rules: Json, f: Flow) {
    && rules.Arr? && FirstRule(rules.items, f).Some?
    && Field(FirstRule(rules.items, f).value, "action") == Some(Str("ALLOW"))
  }

  /** The identifier of the rule that decides. */
  function WireRule(rules: Json, f: Flow): Option<Json> {
    if rules.Arr? && FirstRule(rules.items, f).Some? then Field(FirstRule(rules.items, f).value, "id") else None
  }

  /** A rule arrives with its policy's fields. */
  predicate Renders(rule: Json, p: NetworkPolicy, f: Flow) {
    && (RuleMatches(rule, f) <==>
         FlowMatches(p.sourceZones, p.destinationZones, p.protocols, p.destinationPorts, f))
    && Field(rule, "id") == Some(Str(p.id))
    && Field(rule, "action") == Some(Str(if p.action == ALLOW then "ALLOW" else "DENY"))
  }

  lemma {:induction false} RulesAt(ps: seq<NetworkPolicy>, k: nat)
    requires k < |ps|
    ensures |FirewallRulesFor(ps)| == |ps|
    ensures FirewallRulesFor(ps)[k] == FirewallRulesFor([ps[k]])[0]
  {
    if |ps| > 1 {
      RulesAt(ps[1..], if k > 0 then k - 1 else 0);
    }
  }

  lemma RuleFieldsArrive(r: FirewallRule, w: Json)
    requires Equivalent(FirewallRuleJson(r), w) && WellFormed(w)
    ensures Field(w, "id") == Some(Str(r.id))
    ensures Field(w, "action") == Some(Str(if r.allow then "ALLOW" else "DENY"))
    ensures Field(w, "protocols").Some? && Equivalent(Strings(r.protocols), Field(w, "protocols").value)
    ensures Field(w, "ports").Some? && Equivalent(Ints(r.ports), Field(w, "ports").value)
    ensures Field(w, "sourceZones").Some? && Equivalent(Strings(r.sourceZones), Field(w, "sourceZones").value)
    ensures Field(w, "destinationZones").Some?
    ensures Equivalent(Strings(r.destinationZones), Field(w, "destinationZones").value)
  {
    var es := FirewallRuleJson(r).entries;
    FieldArrives(es, w, 0);
    FieldArrives(es, w, 1);
    FieldArrives(es, w, 2);
    FieldArrives(es, w, 3);
    FieldArrives(es, w, 4);
    FieldArrives(es, w, 5);
  }

  lemma RuleArrives(p: NetworkPolicy, w: Json, f: Flow)
    requires Equivalent(FirewallRuleJson(FirewallRulesFor([p])[0]), w) && WellFormed(w)
    ensures Renders(w, p, f)
  {
    RuleFieldsArrive(FirewallRulesFor([p])[0], w);
    StringsArrive(p.protocols, Field(w, "protocols").value, f.protocol);
    StringsArrive(p.protocols, Field(w, "protocols").value, "ANY");
    StringsArrive(p.sourceZones, Field(w, "sourceZones").value, f.sourceZone);
    StringsArrive(p.destinationZones, Field(w, "destinationZones").value, f.zone);
    IntsArrive(p.destinationPorts, Field(w, "ports").value, if f.port.Some? then f.port.value else 0);
    assert Field(w, "ports") == Some(Arr([])) <==> p.destinationPorts == [];
  }

  lemma {:induction false} FirstRuleArrives(ps: seq<NetworkPolicy>, items: seq<Json>, f: Flow, s: Subject)
    requires Entitled(ps, s) && |items| == |ps| && forall k :: 0 <= k < |ps| ==> Renders(items[k], ps[k], f)
    ensures FirstRule(items, f).Some? <==> FirstMatch(ps, f, s.roles).Some?
    ensures FirstRule(items, f).Some? ==> Renders(FirstRule(items, f).value, FirstMatch(ps, f, s.roles).value, f)
  {
    if ps != [] {
      assert Renders(items[0], ps[0], f) && ps[0] in ps;
      if !RuleMatches(items[0], f) {
        assert Entitled(ps[1..], s);
        FirstRuleArrives(ps[1..], items[1..], f, s);
      }
    }
  }

  lemma RulesArrive(ps: seq<NetworkPolicy>, w: Json, f: Flow)
    requires Equivalent(RulesJson(ps), w) && WellFormed(w)
    ensures w.Arr? && |w.items| == |ps| && forall k :: 0 <= k < |ps| ==> Renders(w.items[k], ps[k], f)
  {
    var rules := FirewallRulesFor(ps);
    if ps != [] {
      RulesAt(ps, 0);
    }
    forall k | 0 <= k < |ps|
      ensures Renders(w.items[k], ps[k], f)
    {
      RulesAt(ps, k);
      assert Equivalent(RulesJson(ps).items[k], w.items[k]);
      RuleArrives(ps[k], w.items[k], f);
    }
  }

  /**
   The rule list a node reads, whatever happened to the order of its keys, allows exactly the flows that `decide`
   allows, by the rule of the very policy that `decide` names.
   */
  lemma WireMeaning(ps: seq<NetworkPolicy>, w: Json, f: Flow, s: Subject)
    requires Admitted(s) && Entitled(ps, s) && Sorted(ps, ByPriority())
    requires Equivalent(RulesJson(ps), w) && WellFormed(w)
    ensures WireAllows(w, f) <==> Grants(ps, f, s, ALLOW)
    ensures WireRule(w, f) == match DecidedPolicy(ps, f, s) case None => None case Some(id) => Some(Str(id))
  {
    RulesArrive(ps, w, f);
    FirstRuleArrives(ps, w.items, f, s);
    SortOfSorted(ps, ByPriority());
    FirstMatchIn(ps, f, s.roles);
    assert Entitled(ps, s);
    DecidedIff(ps, f, s, ALLOW);
    assert "ALLOW"[0] != "DENY"[0];
  }
}
