/** The constraint-pack resolver: scoped packs of rules are folded into one decision.
  * Evaluating a rule's predicate on the action, snapshot and context is a parameter.
  */
module Resolver {
  import opened Text
  import opened Wrappers

  datatype Scope = Global | Domain | Task | Session | Emergency | OtherScope

  datatype RuleType = Deny | RequireApproval | Limit | Allow | OtherType

  /** `key` is the metric and selector of a LIMIT rule, absent when either is blank. */
  datatype Rule = Rule(id: string, kind: RuleType, key: Option<(string, string)>, maxValue: Option<real>,
      predicate_: string)

  datatype Pack = Pack(name: string, scope: Scope, domains: seq<string>, rules: seq<Rule>)

  datatype Verdict = Applies | NotApplies | DslViolation | InternalError

  /** What the decision depends on besides the packs; domains are already in lower case. */
  datatype Env = Env(verdict: Rule -> Verdict, metrics: map<string, real>, domain: string, emergencyEnabled: bool)

  datatype Decision = DENY | REQUIRE_APPROVAL | ALLOW

  datatype Reason =
    | DslViolationReason | GovernanceFailure | SchemaViolation | EmergencyOverride | DenyRule
    | MissingMetric | LimitExceeded | RequiresApproval | Consensus

  datatype EvalResult = EvalResult(decision: Decision, reason: Reason, constraints: seq<string>, packs: seq<string>)

  datatype Outcome = Raised | Returned(result: EvalResult)

  function Priority(s: Scope): int {
    match s
    case Global => 1
    case Domain => 2
    case Task => 3
    case Session => 4
    case Emergency => 5
    case OtherScope => 999
  }

  predicate MatchesActivation(env: Env, p: Pack) {
    p.domains == [] || env.domain in p.domains
  }

  // ------------------------------------------------------------------ the decision, declaratively

  /** A rule that is evaluated, with the scope of a pack it comes from. */
  datatype Live = Live(scope: Scope, rule: Rule)

  predicate Enabled(env: Env, s: Scope) {
    s != Emergency || env.emergencyEnabled
  }

  ghost predicate IsLive(env: Env, packs: seq<Pack>, x: Live) {
    Enabled(env, x.scope) &&
    exists p :: p in packs && MatchesActivation(env, p) && p.scope == x.scope && x.rule in p.rules
  }

  predicate Broken(env: Env, x: Live) {
    env.verdict(x.rule) == DslViolation || env.verdict(x.rule) == InternalError
  }

  predicate OfKind(env: Env, x: Live, k: RuleType) {
    env.verdict(x.rule) == Applies && x.rule.kind == k
  }

  predicate Malformed(env: Env, x: Live) {
    OfKind(env, x, Limit) && x.rule.key.None?
  }

  /** A LIMIT that applies but names no maximum. */
  predicate Unbounded(env: Env, x: Live) {
    OfKind(env, x, Limit) && x.rule.key.Some? && x.rule.maxValue.None?
  }

  predicate Fatal(env: Env, x: Live) {
    Broken(env, x) || Unbounded(env, x)
  }

  predicate Overrides(env: Env, x: Live) {
    OfKind(env, x, Allow) && x.scope == Emergency
  }

  predicate Bounds(env: Env, x: Live) {
    OfKind(env, x, Limit) && x.rule.key.Some? && x.rule.maxValue.Some?
  }

  /** The metric is missing or above this maximum. */
  predicate Over(env: Env, metric: string, max: real) {
    metric !in env.metrics || env.metrics[metric] > max
  }

  /** One LIMIT rule checked on its own. */
  predicate Exceeded(env: Env, x: Live) {
    Bounds(env, x) && Over(env, x.rule.key.value.0, x.rule.maxValue.value)
  }

  predicate Denies(env: Env, x: Live) {
    OfKind(env, x, Deny)
  }

  predicate Approves(env: Env, x: Live) {
    OfKind(env, x, RequireApproval)
  }

  ghost predicate HasFatal(env: Env, packs: seq<Pack>) {
    exists x :: IsLive(env, packs, x) && Fatal(env, x)
  }

  ghost predicate HasOverride(env: Env, packs: seq<Pack>) {
    exists x :: IsLive(env, packs, x) && Overrides(env, x)
  }

  ghost predicate HasDeny(env: Env, packs: seq<Pack>) {
    exists x :: IsLive(env, packs, x) && Denies(env, x)
  }

  ghost predicate HasExceeded(env: Env, packs: seq<Pack>) {
    exists x :: IsLive(env, packs, x) && Exceeded(env, x)
  }

  ghost predicate HasApproval(env: Env, packs: seq<Pack>) {
    exists x :: IsLive(env, packs, x) && Approves(env, x)
  }

  ghost predicate WellFormed(env: Env, packs: seq<Pack>) {
    forall x :: IsLive(env, packs, x) ==> !Malformed(env, x)
  }

  /** What the packs decide: every LIMIT rule checked separately, and no order anywhere. */
  ghost function Decide(env: Env, packs: seq<Pack>): Decision {
    if HasFatal(env, packs) then DENY
    else if HasOverride(env, packs) then ALLOW
    else if HasDeny(env, packs) then DENY
    else if HasExceeded(env, packs) then DENY
    else if HasApproval(env, packs) then REQUIRE_APPROVAL
    else ALLOW
  }

  // ------------------------------------------------------------------ the decision, on the rules themselves

  /** The rule `r` of the pack `p` is evaluated: the pack is meant for this domain, and emergency packs count only
    * when they are switched on.
    */
  ghost predicate Evaluated(env: Env, packs: seq<Pack>, p: Pack, r: Rule) {
    && p in packs && r in p.rules
    && (p.domains == [] || env.domain in p.domains)
    && (p.scope == Emergency ==> env.emergencyEnabled)
  }

  /** Evaluating some rule fails, or a LIMIT that applies has no maximum. */
  ghost predicate SomeRuleFails(env: Env, packs: seq<Pack>) {
    exists p, r :: Evaluated(env, packs, p, r)
                   && (env.verdict(r) == DslViolation || env.verdict(r) == InternalError
                       || (env.verdict(r) == Applies && r.kind == Limit && r.key.Some? && r.maxValue.None?))
  }

  ghost predicate EmergencyAllows(env: Env, packs: seq<Pack>) {
    exists p, r :: Evaluated(env, packs, p, r) && p.scope == Emergency && env.verdict(r) == Applies && r.kind == Allow
  }

  ghost predicate SomeRuleOf(env: Env, packs: seq<Pack>, kind: RuleType) {
    exists p, r :: Evaluated(env, packs, p, r) && env.verdict(r) == Applies && r.kind == kind
  }

  /** A LIMIT that applies and names a maximum, and whose metric is missing or larger. */
  ghost predicate SomeLimitBroken(env: Env, packs: seq<Pack>) {
    exists p, r :: Evaluated(env, packs, p, r) && BreaksLimit(env, r)
  }

  predicate BreaksLimit(env: Env, r: Rule) {
    && env.verdict(r) == Applies && r.kind == Limit && r.key.Some? && r.maxValue.Some?
    && (r.key.value.0 in env.metrics ==> env.metrics[r.key.value.0] > r.maxValue.value)
  }

  lemma EvaluatedIsLive(env: Env, packs: seq<Pack>, p: Pack, r: Rule)
    requires Evaluated(env, packs, p, r)
    ensures IsLive(env, packs, Live(p.scope, r))
  {
    assert MatchesActivation(env, p);
  }

  lemma LiveIsEvaluated(env: Env, packs: seq<Pack>, x: Live)
    requires IsLive(env, packs, x)
    ensures exists p :: Evaluated(env, packs, p, x.rule) && p.scope == x.scope
  {
    var p :| p in packs && MatchesActivation(env, p) && p.scope == x.scope && x.rule in p.rules;
    assert Evaluated(env, packs, p, x.rule);
  }

  lemma FailsExactly(env: Env, packs: seq<Pack>)
    ensures HasFatal(env, packs) <==> SomeRuleFails(env, packs)
  {
    if HasFatal(env, packs) {
      var x :| IsLive(env, packs, x) && Fatal(env, x);
      LiveIsEvaluated(env, packs, x);
    }
    if SomeRuleFails(env, packs) {
      var p, r :| Evaluated(env, packs, p, r)
                  && (env.verdict(r) == DslViolation || env.verdict(r) == InternalError
                      || (env.verdict(r) == Applies && r.kind == Limit && r.key.Some? && r.maxValue.None?));
      EvaluatedIsLive(env, packs, p, r);
      assert Fatal(env, Live(p.scope, r));
    }
  }

  lemma OverridesExactly(env: Env, packs: seq<Pack>)
    ensures HasOverride(env, packs) <==> EmergencyAllows(env, packs)
  {
    if HasOverride(env, packs) {
      var x :| IsLive(env, packs, x) && Overrides(env, x);
      LiveIsEvaluated(env, packs, x);
    }
    if EmergencyAllows(env, packs) {
      var p, r :| Evaluated(env, packs, p, r) && p.scope == Emergency && env.verdict(r) == Applies && r.kind == Allow;
      EvaluatedIsLive(env, packs, p, r);
      assert Overrides(env, Live(p.scope, r));
    }
  }

  lemma KindsExactly(env: Env, packs: seq<Pack>)
    ensures HasDeny(env, packs) <==> SomeRuleOf(env, packs, Deny)
    ensures HasApproval(env, packs) <==> SomeRuleOf(env, packs, RequireApproval)
  {
    forall k: RuleType ensures SomeRuleOf(env, packs, k) <==> exists x :: IsLive(env, packs, x) && OfKind(env, x, k) {
      if x :| IsLive(env, packs, x) && OfKind(env, x, k) {
        LiveIsEvaluated(env, packs, x);
      }
      if p, r :| Evaluated(env, packs, p, r) && env.verdict(r) == Applies && r.kind == k {
        EvaluatedIsLive(env, packs, p, r);
        assert OfKind(env, Live(p.scope, r), k);
      }
    }
  }

  lemma LimitsExactly(env: Env, packs: seq<Pack>)
    ensures HasExceeded(env, packs) <==> SomeLimitBroken(env, packs)
  {
    if HasExceeded(env, packs) {
      var x :| IsLive(env, packs, x) && Exceeded(env, x);
      LiveIsEvaluated(env, packs, x);
      assert BreaksLimit(env, x.rule);
    }
    if SomeLimitBroken(env, packs) {
      var p, r :| Evaluated(env, packs, p, r) && BreaksLimit(env, r);
      EvaluatedIsLive(env, packs, p, r);
      assert Exceeded(env, Live(p.scope, r));
    }
  }

  /** The decision on the rules, the verdicts and the metrics themselves: failing rules deny, then an emergency
    * allowance allows, then DENY rules and broken limits deny, and approval is required for what is left.
    */
  lemma DecisionExactly(env: Env, packs: seq<Pack>)
    ensures Decide(env, packs) == DENY <==>
              || SomeRuleFails(env, packs)
              || (!EmergencyAllows(env, packs) && (SomeRuleOf(env, packs, Deny) || SomeLimitBroken(env, packs)))
    ensures Decide(env, packs) == REQUIRE_APPROVAL <==>
              && !SomeRuleFails(env, packs) && !EmergencyAllows(env, packs) && !SomeRuleOf(env, packs, Deny)
              && !SomeLimitBroken(env, packs) && SomeRuleOf(env, packs, RequireApproval)
  {
    FailsExactly(env, packs);
    OverridesExactly(env, packs);
    KindsExactly(env, packs);
    LimitsExactly(env, packs);
  }

  /** A broken limit denies, unless an emergency allowance applies and no rule fails; and where nothing but
    * well-formed limits applies, only a broken limit denies.
    */
  lemma LimitDenies(env: Env, packs: seq<Pack>, p: Pack, r: Rule)
    requires Evaluated(env, packs, p, r) && env.verdict(r) == Applies
    requires r.kind == Limit && r.key.Some? && r.maxValue.Some?
    requires r.key.value.0 !in env.metrics || env.metrics[r.key.value.0] > r.maxValue.value
    ensures Decide(env, packs) == DENY || (EmergencyAllows(env, packs) && !SomeRuleFails(env, packs))
  {
    assert BreaksLimit(env, r);
    DecisionExactly(env, packs);
  }

  lemma OnlyLimits(env: Env, packs: seq<Pack>)
    requires forall p, r :: Evaluated(env, packs, p, r) ==>
               || env.verdict(r) == NotApplies
               || (env.verdict(r) == Applies && r.kind == Limit && r.key.Some? && r.maxValue.Some?)
    ensures Decide(env, packs) == (if SomeLimitBroken(env, packs) then DENY else ALLOW)
  {
    DecisionExactly(env, packs);
  }

  const COST_LIMIT := Rule("c", Limit, Some(("session_cost_usd", "GLOBAL")), Some(10.0), "")
  const COST_PACK := Pack("budget", Global, [], [COST_LIMIT])

  /** A limit on a metric that the snapshot does not have denies. */
  lemma MissingMetricDenies(env: Env)
    requires env.verdict(COST_LIMIT) == Applies && "session_cost_usd" !in env.metrics
    ensures Decide(env, [COST_PACK]) == DENY
  {
    assert COST_LIMIT in COST_PACK.rules && COST_PACK in [COST_PACK];
    assert Evaluated(env, [COST_PACK], COST_PACK, COST_LIMIT);
    LimitDenies(env, [COST_PACK], COST_PACK, COST_LIMIT);
    assert !EmergencyAllows(env, [COST_PACK]);
  }

  // ------------------------------------------------------------------ laws of the decision

  ghost predicate SameLive(env: Env, packs: seq<Pack>, packs': seq<Pack>) {
    forall x :: IsLive(env, packs, x) <==> IsLive(env, packs', x)
  }

  lemma SameDecision(env: Env, packs: seq<Pack>, packs': seq<Pack>)
    requires SameLive(env, packs, packs')
    ensures Decide(env, packs) == Decide(env, packs')
  {
  }

  /** The order in which packs are given does not matter. */
  lemma PermutationInvariant(env: Env, packs: seq<Pack>, packs': seq<Pack>)
    requires multiset(packs) == multiset(packs')
    ensures Decide(env, packs) == Decide(env, packs')
  {
    SameElements(packs, packs');
    SameDecision(env, packs, packs');
  }

  lemma SameElements<T>(a: seq<T>, b: seq<T>)
    requires multiset(a) == multiset(b)
    ensures forall p :: p in a <==> p in b
  {
    forall p ensures p in a <==> p in b {
      assert p in a <==> p in multiset(a);
      assert p in b <==> p in multiset(b);
    }
  }

  function Strictness(d: Decision): nat {
    match d case ALLOW => 0 case REQUIRE_APPROVAL => 1 case DENY => 2
  }

  ghost predicate MoreLive(env: Env, packs: seq<Pack>, more: seq<Pack>) {
    forall x :: IsLive(env, packs, x) ==> IsLive(env, more, x)
  }

  lemma MoreHas(env: Env, packs: seq<Pack>, more: seq<Pack>)
    requires MoreLive(env, packs, more)
    ensures HasFatal(env, packs) ==> HasFatal(env, more)
    ensures HasOverride(env, packs) ==> HasOverride(env, more)
    ensures HasDeny(env, packs) ==> HasDeny(env, more)
    ensures HasExceeded(env, packs) ==> HasExceeded(env, more)
    ensures HasApproval(env, packs) ==> HasApproval(env, more)
  {
  }

  /** Adding rules, in old packs or new ones, loosens a decision exactly when an emergency ALLOW then applies
    * and no rule fails.
    */
  lemma LoosensExactly(env: Env, packs: seq<Pack>, more: seq<Pack>)
    requires MoreLive(env, packs, more)
    ensures Strictness(Decide(env, more)) < Strictness(Decide(env, packs)) <==>
              Decide(env, packs) != ALLOW && HasOverride(env, more) && !HasFatal(env, more)
  {
    MoreHas(env, packs, more);
  }

  /** So it never does as long as no added rule is an emergency ALLOW that applies. */
  lemma AddingNeverLoosens(env: Env, packs: seq<Pack>, more: seq<Pack>)
    requires MoreLive(env, packs, more)
    requires forall x :: IsLive(env, more, x) && !IsLive(env, packs, x) ==> !Overrides(env, x)
    ensures Strictness(Decide(env, packs)) <= Strictness(Decide(env, more))
  {
    LoosensExactly(env, packs, more);
    MoreHas(env, packs, more);
    if x :| IsLive(env, more, x) && Overrides(env, x) {
      assert HasOverride(env, packs);
    }
  }

  const NO_LIMITS := Env(_ => Applies, map[], "", true)
  const DENY_ALL := Pack("base", Global, [], [Rule("d", Deny, None, None, "")])
  const BREAK_GLASS := Pack("break-glass", Emergency, [], [Rule("a", Allow, None, None, "")])

  lemma FirstRuleLives(packs: seq<Pack>, p: Pack)
    requires p in packs && p.domains == [] && p.rules != []
    ensures IsLive(NO_LIMITS, packs, Live(p.scope, p.rules[0]))
  {
    assert MatchesActivation(NO_LIMITS, p) && p.rules[0] in p.rules;
  }

  lemma NothingFatal(packs: seq<Pack>)
    requires forall p, r :: p in packs && r in p.rules ==> r.kind != Limit
    ensures !HasFatal(NO_LIMITS, packs)
  {
  }

  /** And it can: an emergency pack turns a DENY into ALLOW. */
  lemma EmergencyLoosens()
    ensures MoreLive(NO_LIMITS, [DENY_ALL], [DENY_ALL, BREAK_GLASS])
    ensures Decide(NO_LIMITS, [DENY_ALL]) == DENY && Decide(NO_LIMITS, [DENY_ALL, BREAK_GLASS]) == ALLOW
  {
    FirstRuleLives([DENY_ALL], DENY_ALL);
    NothingFatal([DENY_ALL]);
    assert Denies(NO_LIMITS, Live(Global, DENY_ALL.rules[0]));
    assert HasDeny(NO_LIMITS, [DENY_ALL]);
    FirstRuleLives([DENY_ALL, BREAK_GLASS], BREAK_GLASS);
    NothingFatal([DENY_ALL, BREAK_GLASS]);
    assert Overrides(NO_LIMITS, Live(Emergency, BREAK_GLASS.rules[0]));
    assert HasOverride(NO_LIMITS, [DENY_ALL, BREAK_GLASS]);
    NoOverride();
  }

  lemma NoOverride()
    ensures !HasOverride(NO_LIMITS, [DENY_ALL])
  {
  }

  function WithoutEmergency(packs: seq<Pack>): seq<Pack> {
    if packs == [] then []
    else (if packs[0].scope == Emergency then [] else [packs[0]]) + WithoutEmergency(packs[1..])
  }

  lemma {:induction false} WithoutEmergencyElements(packs: seq<Pack>)
    ensures forall p :: p in WithoutEmergency(packs) <==> p in packs && p.scope != Emergency
  {
    if packs != [] {
      WithoutEmergencyElements(packs[1..]);
      assert packs == [packs[0]] + packs[1..];
    }
  }

  /** With the flag off, emergency packs decide nothing. */
  lemma EmergencyInert(env: Env, packs: seq<Pack>)
    requires !env.emergencyEnabled
    ensures Decide(env, packs) == Decide(env, WithoutEmergency(packs))
  {
    WithoutEmergencyElements(packs);
    forall x ensures IsLive(env, packs, x) <==> IsLive(env, WithoutEmergency(packs), x) {
    }
    SameDecision(env, packs, WithoutEmergency(packs));
  }

  // ------------------------------------------------------------------ sorting the packs

  function Insert(p: Pack, ps: seq<Pack>): seq<Pack> {
    if ps == [] || Priority(p.scope) <= Priority(ps[0].scope) then [p] + ps else [ps[0]] + Insert(p, ps[1..])
  }

  /** `sort_packs`: stable, by scope priority. */
  function SortPacks(ps: seq<Pack>): seq<Pack> {
    if ps == [] then [] else Insert(ps[0], SortPacks(ps[1..]))
  }

  lemma {:induction false} InsertElements(p: Pack, ps: seq<Pack>)
    ensures multiset(Insert(p, ps)) == multiset(ps) + multiset{p}
  {
    if ps != [] && Priority(p.scope) > Priority(ps[0].scope) {
      InsertElements(p, ps[1..]);
      assert ps == [ps[0]] + ps[1..];
    }
  }

  lemma {:induction false} SortElements(ps: seq<Pack>)
    ensures multiset(SortPacks(ps)) == multiset(ps)
  {
    if ps != [] {
      SortElements(ps[1..]);
      InsertElements(ps[0], SortPacks(ps[1..]));
      assert ps == [ps[0]] + ps[1..];
    }
  }

  predicate Ordered(ps: seq<Pack>) {
    forall i, j :: 0 <= i < j < |ps| ==> Priority(ps[i].scope) <= Priority(ps[j].scope)
  }

  function AtPriority(ps: seq<Pack>, n: int): seq<Pack> {
    if ps == [] then []
    else (if Priority(ps[0].scope) == n then [ps[0]] else []) + AtPriority(ps[1..], n)
  }

  lemma {:induction false} InsertOrdered(p: Pack, ps: seq<Pack>)
    requires Ordered(ps)
    ensures Ordered(Insert(p, ps))
    ensures Insert(p, ps) != [] && (Insert(p, ps)[0] == p || (ps != [] && Insert(p, ps)[0] == ps[0]))
  {
    if ps != [] && Priority(p.scope) > Priority(ps[0].scope) {
      InsertOrdered(p, ps[1..]);
    }
  }

  lemma {:induction false} InsertStable(p: Pack, ps: seq<Pack>, n: int)
    ensures AtPriority(Insert(p, ps), n) == AtPriority([p], n) + AtPriority(ps, n)
  {
    if ps != [] && Priority(p.scope) > Priority(ps[0].scope) {
      InsertStable(p, ps[1..], n);
      assert Insert(p, ps)[1..] == Insert(p, ps[1..]);
    } else {
      assert ([p] + ps)[1..] == ps;
    }
  }

  lemma {:induction false} SortOrdered(ps: seq<Pack>)
    ensures Ordered(SortPacks(ps))
  {
    if ps != [] {
      SortOrdered(ps[1..]);
      InsertOrdered(ps[0], SortPacks(ps[1..]));
    }
  }

  /** Packs of one priority keep their order. */
  lemma {:induction false} SortStable(ps: seq<Pack>, n: int)
    ensures AtPriority(SortPacks(ps), n) == AtPriority(ps, n)
  {
    if ps != [] {
      SortStable(ps[1..], n);
      InsertStable(ps[0], SortPacks(ps[1..]), n);
    }
  }

  /** The scopes in the order in which packs are considered. */
  predicate NotAfter(a: Scope, b: Scope) {
    match b
    case Global => a == Global
    case Domain => a in {Global, Domain}
    case Task => a in {Global, Domain, Task}
    case Session => a in {Global, Domain, Task, Session}
    case Emergency => a != OtherScope
    case OtherScope => true
  }

  /** Global packs come first, then those of a domain, a task, a session, the emergency packs, and all others. */
  lemma SortByScope(ps: seq<Pack>, i: nat, j: nat)
    requires i < j < |SortPacks(ps)|
    ensures NotAfter(SortPacks(ps)[i].scope, SortPacks(ps)[j].scope)
  {
    SortOrdered(ps);
  }

  // ------------------------------------------------------------------ the order of evaluation

  /** A rule when its turn comes, with its pack. */
  datatype Turn = Turn(pack: Pack, rule: Rule)

  function LiveOf(t: Turn): Live {
    Live(t.pack.scope, t.rule)
  }

  /** The turns of the first `n` rules of a pack. */
  function TurnsOf(env: Env, p: Pack, n: nat): seq<Turn>
    requires n <= |p.rules|
  {
    if n == 0 then []
    else TurnsOf(env, p, n - 1) + (if Enabled(env, p.scope) then [Turn(p, p.rules[n - 1])] else [])
  }

  /** The turns of the first `n` packs. */
  function Turns(env: Env, ps: seq<Pack>, n: nat): seq<Turn>
    requires n <= |ps|
  {
    if n == 0 then [] else Turns(env, ps, n - 1) + TurnsOf(env, ps[n - 1], |ps[n - 1].rules|)
  }

  /** The turns of `resolve`: the active packs by scope, each with its rules in order. */
  function AllTurns(env: Env, packs: seq<Pack>): seq<Turn> {
    var sorted := SortPacks(ActivePacks(env, packs));
    Turns(env, sorted, |sorted|)
  }

  lemma {:induction false} TurnsOfElements(env: Env, p: Pack, n: nat, t: Turn)
    requires n <= |p.rules|
    ensures t in TurnsOf(env, p, n) <==> Enabled(env, p.scope) && t.pack == p && t.rule in p.rules[..n]
  {
    if n > 0 {
      TurnsOfElements(env, p, n - 1, t);
      assert p.rules[..n] == p.rules[..n - 1] + [p.rules[n - 1]];
    }
  }

  lemma {:induction false} TurnsElements(env: Env, ps: seq<Pack>, n: nat, t: Turn)
    requires n <= |ps|
    ensures t in Turns(env, ps, n) <==> Enabled(env, t.pack.scope) && t.pack in ps[..n] && t.rule in t.pack.rules
  {
    if n > 0 {
      TurnsElements(env, ps, n - 1, t);
      TurnsOfElements(env, ps[n - 1], |ps[n - 1].rules|, t);
      assert ps[n - 1].rules[..|ps[n - 1].rules|] == ps[n - 1].rules;
      assert ps[..n] == ps[..n - 1] + [ps[n - 1]];
    }
  }

  /** A rule is live exactly when it has a turn. */
  lemma LiveHasTurn(env: Env, packs: seq<Pack>, x: Live)
    ensures IsLive(env, packs, x) <==> exists t :: t in AllTurns(env, packs) && LiveOf(t) == x
  {
    var sorted := SortPacks(ActivePacks(env, packs));
    SortedActiveSameLive(env, packs);
    assert sorted[..|sorted|] == sorted;
    if IsLive(env, packs, x) {
      var p :| p in packs && MatchesActivation(env, p) && p.scope == x.scope && x.rule in p.rules;
      TurnsElements(env, sorted, |sorted|, Turn(p, x.rule));
      assert LiveOf(Turn(p, x.rule)) == x;
    }
    if t :| t in AllTurns(env, packs) && LiveOf(t) == x {
      TurnsElements(env, sorted, |sorted|, t);
    }
  }

  // ------------------------------------------------------------------ the accumulator

  /** An effective limit and the rule it comes from. */
  datatype Lim = Lim(max: real, id: string)

  type Limits = map<(string, string), Lim>

  /** What `resolve` has collected from the rules seen so far. */
  datatype Acc = Acc(
    denyHits: seq<string>, approvalHits: seq<string>, limits: Limits, emergencyPacks: seq<string>)

  const EMPTY := Acc([], [], map[], [])

  /** The ids of the rules of a kind that apply, in their order. */
  function IdsOf(env: Env, turns: seq<Turn>, kind: RuleType): seq<string> {
    if turns == [] then []
    else
      var before, last := IdsOf(env, turns[..|turns| - 1], kind), turns[|turns| - 1];
      if env.verdict(last.rule) == Applies && last.rule.kind == kind then before + [last.rule.id] else before
  }

  /** The packs of the emergency allowances that apply, in their order. */
  function AllowingPacks(env: Env, turns: seq<Turn>): seq<string> {
    if turns == [] then []
    else
      var before, last := AllowingPacks(env, turns[..|turns| - 1]), turns[|turns| - 1];
      if env.verdict(last.rule) == Applies && last.rule.kind == Allow && last.pack.scope == Emergency
      then before + [last.pack.name] else before
  }

  lemma {:induction false} SomeIds(env: Env, turns: seq<Turn>, kind: RuleType)
    ensures IdsOf(env, turns, kind) != [] <==> exists t :: t in turns && OfKind(env, LiveOf(t), kind)
  {
    if turns != [] {
      var before, last := turns[..|turns| - 1], turns[|turns| - 1];
      SomeIds(env, before, kind);
      assert turns == before + [last] && last in turns;
      if t :| t in before && OfKind(env, LiveOf(t), kind) {
        assert t in turns;
      }
    }
  }

  lemma {:induction false} SomeAllowing(env: Env, turns: seq<Turn>)
    ensures AllowingPacks(env, turns) != [] <==> exists t :: t in turns && Overrides(env, LiveOf(t))
  {
    if turns != [] {
      var before, last := turns[..|turns| - 1], turns[|turns| - 1];
      SomeAllowing(env, before);
      assert turns == before + [last] && last in turns;
      if t :| t in before && Overrides(env, LiveOf(t)) {
        assert t in turns;
      }
    }
  }

  /** The rule at position `i` is a LIMIT on this key. */
  predicate BoundsAt(env: Env, turns: seq<Turn>, i: nat, k: (string, string))
    requires i < |turns|
  {
    Bounds(env, LiveOf(turns[i])) && turns[i].rule.key.value == k
  }

  /** The limit comes from the rule at position `i`: the first one with the least maximum for its key. */
  ghost predicate LeastAt(env: Env, turns: seq<Turn>, i: nat, k: (string, string), l: Lim) {
    && i < |turns| && BoundsAt(env, turns, i, k)
    && turns[i].rule.maxValue.value == l.max && turns[i].rule.id == l.id
    && (forall j :: 0 <= j < |turns| && BoundsAt(env, turns, j, k) ==> turns[j].rule.maxValue.value >= l.max)
    && (forall j :: 0 <= j < i && BoundsAt(env, turns, j, k) ==> turns[j].rule.maxValue.value > l.max)
  }

  ghost predicate LimitsFaithful(env: Env, turns: seq<Turn>, limits: Limits) {
    && (forall i, k :: 0 <= i < |turns| && BoundsAt(env, turns, i, k) ==> k in limits)
    && (forall k :: k in limits ==> exists i: nat :: LeastAt(env, turns, i, k, limits[k]))
  }

  predicate Stopping(env: Env, t: Turn) {
    Fatal(env, LiveOf(t)) || Malformed(env, LiveOf(t))
  }

  ghost predicate Faithful(env: Env, turns: seq<Turn>, acc: Acc) {
    && (forall i :: 0 <= i < |turns| ==> !Stopping(env, turns[i]))
    && acc.denyHits == IdsOf(env, turns, Deny) && acc.approvalHits == IdsOf(env, turns, RequireApproval)
    && acc.emergencyPacks == AllowingPacks(env, turns)
    && LimitsFaithful(env, turns, acc.limits)
  }

  ghost predicate SomeExceeded(env: Env, turns: seq<Turn>) {
    exists t :: t in turns && Exceeded(env, LiveOf(t))
  }

  /** Checking the least maximum per key is checking every LIMIT rule. */
  lemma LeastLimitsSuffice(env: Env, turns: seq<Turn>, limits: Limits)
    requires LimitsFaithful(env, turns, limits)
    ensures (exists k :: k in limits && Over(env, k.0, limits[k].max)) <==> SomeExceeded(env, turns)
  {
    if k :| k in limits && Over(env, k.0, limits[k].max) {
      var i: nat :| LeastAt(env, turns, i, k, limits[k]);
      assert turns[i] in turns && Exceeded(env, LiveOf(turns[i]));
    }
    if t :| t in turns && Exceeded(env, LiveOf(t)) {
      var j :| 0 <= j < |turns| && turns[j] == t;
      var k := t.rule.key.value;
      assert BoundsAt(env, turns, j, k);
      var i: nat :| LeastAt(env, turns, i, k, limits[k]);
      assert Over(env, k.0, limits[k].max);
    }
  }

  function AddLimit(limits: Limits, k: (string, string), l: Lim): Limits {
    if k !in limits || l.max < limits[k].max then limits[k := l] else limits
  }

  lemma BoundsOfLonger(env: Env, turns: seq<Turn>, t: Turn, j: nat, k: (string, string))
    requires j <= |turns|
    ensures BoundsAt(env, turns + [t], j, k) <==>
              if j < |turns| then BoundsAt(env, turns, j, k) else Bounds(env, LiveOf(t)) && t.rule.key.value == k
  {
  }

  /** A limit stays the first least one unless the new rule has a smaller maximum for its key. */
  lemma LeastKept(env: Env, turns: seq<Turn>, t: Turn, i: nat, k: (string, string), l: Lim)
    requires LeastAt(env, turns, i, k, l)
    requires Bounds(env, LiveOf(t)) && t.rule.key.value == k ==> t.rule.maxValue.value >= l.max
    ensures LeastAt(env, turns + [t], i, k, l)
  {
    forall j: nat | j <= |turns|
      ensures BoundsAt(env, turns + [t], j, k) <==>
                if j < |turns| then BoundsAt(env, turns, j, k) else Bounds(env, LiveOf(t)) && t.rule.key.value == k
    {
      BoundsOfLonger(env, turns, t, j, k);
    }
  }

  lemma LeastNow(env: Env, turns: seq<Turn>, t: Turn, limits: Limits)
    requires LimitsFaithful(env, turns, limits) && Bounds(env, LiveOf(t))
    requires var k := t.rule.key.value; k !in limits || t.rule.maxValue.value < limits[k].max
    ensures LeastAt(env, turns + [t], |turns|, t.rule.key.value, Lim(t.rule.maxValue.value, t.rule.id))
  {
    var k := t.rule.key.value;
    forall j: nat | j <= |turns| && BoundsAt(env, turns + [t], j, k)
      ensures j < |turns| ==> turns[j].rule.maxValue.value > t.rule.maxValue.value
    {
      BoundsOfLonger(env, turns, t, j, k);
      if j < |turns| {
        var i: nat :| LeastAt(env, turns, i, k, limits[k]);
      }
    }
    BoundsOfLonger(env, turns, t, |turns|, k);
  }

  lemma LimitAdded(env: Env, turns: seq<Turn>, limits: Limits, t: Turn)
    requires LimitsFaithful(env, turns, limits) && Bounds(env, LiveOf(t))
    ensures LimitsFaithful(env, turns + [t], AddLimit(limits, t.rule.key.value, Lim(t.rule.maxValue.value, t.rule.id)))
  {
    var k := t.rule.key.value;
    var l := Lim(t.rule.maxValue.value, t.rule.id);
    var out, more := AddLimit(limits, k, l), turns + [t];
    forall i, j | 0 <= i < |more| && BoundsAt(env, more, i, j) ensures j in out {
      BoundsOfLonger(env, turns, t, i, j);
    }
    forall j | j in out ensures exists i: nat :: LeastAt(env, more, i, j, out[j]) {
      if j == k && (k !in limits || l.max < limits[k].max) {
        LeastNow(env, turns, t, limits);
      } else {
        var i: nat :| LeastAt(env, turns, i, j, limits[j]);
        LeastKept(env, turns, t, i, j, limits[j]);
      }
    }
  }

  // ------------------------------------------------------------------ the code

  datatype Considered = Continue(acc: Acc) | Stop(outcome: Outcome)

  lemma LimitsUnaffected(env: Env, turns: seq<Turn>, limits: Limits, t: Turn)
    requires LimitsFaithful(env, turns, limits) && !Bounds(env, LiveOf(t))
    ensures LimitsFaithful(env, turns + [t], limits)
  {
    var more := turns + [t];
    forall i, j | 0 <= i < |more| && BoundsAt(env, more, i, j) ensures j in limits {
      BoundsOfLonger(env, turns, t, i, j);
    }
    forall j | j in limits ensures exists i: nat :: LeastAt(env, more, i, j, limits[j]) {
      var i: nat :| LeastAt(env, turns, i, j, limits[j]);
      LeastKept(env, turns, t, i, j, limits[j]);
    }
  }

  lemma HitsAdded(env: Env, turns: seq<Turn>, t: Turn)
    ensures forall k :: IdsOf(env, turns + [t], k) ==
                          IdsOf(env, turns, k) + (if OfKind(env, LiveOf(t), k) then [t.rule.id] else [])
    ensures AllowingPacks(env, turns + [t]) ==
              AllowingPacks(env, turns) + (if Overrides(env, LiveOf(t)) then [t.pack.name] else [])
  {
    assert (turns + [t])[..|turns|] == turns;
  }

  /** What the collection becomes with one more rule that does not stop the evaluation. */
  lemma FaithfulAdded(env: Env, turns: seq<Turn>, acc: Acc, t: Turn, acc': Acc)
    requires Faithful(env, turns, acc) && !Stopping(env, t)
    requires acc'.denyHits == acc.denyHits + (if OfKind(env, LiveOf(t), Deny) then [t.rule.id] else [])
    requires acc'.approvalHits ==
               acc.approvalHits + (if OfKind(env, LiveOf(t), RequireApproval) then [t.rule.id] else [])
    requires acc'.emergencyPacks == acc.emergencyPacks + (if Overrides(env, LiveOf(t)) then [t.pack.name] else [])
    requires acc'.limits ==
               if Bounds(env, LiveOf(t))
               then AddLimit(acc.limits, t.rule.key.value, Lim(t.rule.maxValue.value, t.rule.id)) else acc.limits
    ensures Faithful(env, turns + [t], acc')
  {
    HitsAdded(env, turns, t);
    if Bounds(env, LiveOf(t)) {
      LimitAdded(env, turns, acc.limits, t);
    } else {
      LimitsUnaffected(env, turns, acc.limits, t);
    }
  }

  /** A failing rule is named by its id, if it has one. */
  function Named(id: string): seq<string> {
    if id == "" then [] else [id]
  }

  /** The rule stops the evaluation with this outcome. */
  predicate Stops(env: Env, t: Turn, o: Outcome) {
    var ids := if |t.rule.id| > 0 then [t.rule.id] else [];
    match env.verdict(t.rule)
    case NotApplies => false
    case DslViolation => o == Returned(EvalResult(DENY, DslViolationReason, ids, [t.pack.name]))
    case InternalError => o == Returned(EvalResult(DENY, GovernanceFailure, ids, [t.pack.name]))
    case Applies =>
      t.rule.kind == Limit
      && if t.rule.key.None? then o == Raised
         else t.rule.maxValue.None? && o == Returned(EvalResult(DENY, SchemaViolation, [t.rule.id], [t.pack.name]))
  }

  /** The body of the inner loop. */
  method ConsiderRule(env: Env, p: Pack, r: Rule, acc: Acc, ghost turns: seq<Turn>) returns (c: Considered)
    requires Enabled(env, p.scope) && Faithful(env, turns, acc)
    ensures c.Continue? ==> Faithful(env, turns + [Turn(p, r)], c.acc)
    ensures c.Stop? ==> Stops(env, Turn(p, r), c.outcome)
  {
    var acc' := acc;
    match env.verdict(r) {
      case DslViolation => return Stop(Returned(EvalResult(DENY, DslViolationReason, Named(r.id), [p.name])));
      case InternalError => return Stop(Returned(EvalResult(DENY, GovernanceFailure, Named(r.id), [p.name])));
      case NotApplies =>
      case Applies =>
        if p.scope == Emergency && r.kind == Allow {
          acc' := acc.(emergencyPacks := acc.emergencyPacks + [p.name]);
        } else if r.kind == Deny {
          acc' := acc.(denyHits := acc.denyHits + [r.id]);
        } else if r.kind == RequireApproval {
          acc' := acc.(approvalHits := acc.approvalHits + [r.id]);
        } else if r.kind == Limit {
          if r.key.None? {
            return Stop(Raised);
          }
          if r.maxValue.None? {
            return Stop(Returned(EvalResult(DENY, SchemaViolation, [r.id], [p.name])));
          }
          acc' := acc.(limits := AddLimit(acc.limits, r.key.value, Lim(r.maxValue.value, r.id)));
        }
    }
    FaithfulAdded(env, turns, acc, Turn(p, r), acc');
    return Continue(acc');
  }

  /** The turn at position `i` is the first that stops the evaluation. */
  ghost predicate StopsAt(env: Env, turns: seq<Turn>, i: nat, o: Outcome) {
    i < |turns| && Stops(env, turns[i], o) && forall j :: 0 <= j < i ==> !Stopping(env, turns[j])
  }

  lemma StopsInLonger(env: Env, turns: seq<Turn>, more: seq<Turn>, i: nat, o: Outcome)
    requires StopsAt(env, turns, i, o) && turns <= more
    ensures StopsAt(env, more, i, o)
  {
    forall j | 0 <= j <= i ensures more[j] == turns[j] {
    }
  }

  /** The inner loop. */
  method ConsiderPack(env: Env, p: Pack, acc: Acc, ghost turns: seq<Turn>) returns (c: Considered)
    requires MatchesActivation(env, p) && Faithful(env, turns, acc)
    ensures c.Continue? ==> Faithful(env, turns + TurnsOf(env, p, |p.rules|), c.acc)
    ensures c.Stop? ==> exists i: nat :: StopsAt(env, turns + TurnsOf(env, p, |p.rules|), i, c.outcome)
  {
    var acc' := acc;
    var i := 0;
    assert turns + TurnsOf(env, p, 0) == turns;
    while i < |p.rules|
      invariant 0 <= i <= |p.rules|
      invariant Faithful(env, turns + TurnsOf(env, p, i), acc')
    {
      c := ConsiderNext(env, p, i, acc', turns);
      if c.Stop? {
        return;
      }
      acc' := c.acc;
      i := i + 1;
    }
    return Continue(acc');
  }

  lemma {:induction false} TurnsOfPrefix(env: Env, p: Pack, i: nat, n: nat)
    requires i <= n <= |p.rules|
    ensures TurnsOf(env, p, i) <= TurnsOf(env, p, n)
    decreases n
  {
    if i < n {
      TurnsOfPrefix(env, p, i, n - 1);
    }
  }

  /** One turn of the loop over the rules; those of a pack that is not enabled are passed over. */
  method ConsiderNext(env: Env, p: Pack, i: nat, acc: Acc, ghost turns: seq<Turn>) returns (c: Considered)
    requires MatchesActivation(env, p) && i < |p.rules|
    requires Faithful(env, turns + TurnsOf(env, p, i), acc)
    ensures c.Continue? ==> Faithful(env, turns + TurnsOf(env, p, i + 1), c.acc)
    ensures c.Stop? ==> exists k: nat :: StopsAt(env, turns + TurnsOf(env, p, |p.rules|), k, c.outcome)
  {
    ghost var before := turns + TurnsOf(env, p, i);
    c := Continue(acc);
    if Enabled(env, p.scope) {
      c := ConsiderRule(env, p, p.rules[i], acc, before);
      ghost var now := before + [Turn(p, p.rules[i])];
      assert now == turns + TurnsOf(env, p, i + 1);
      if c.Stop? {
        assert StopsAt(env, now, |before|, c.outcome);
        TurnsOfPrefix(env, p, i + 1, |p.rules|);
        StopsInLonger(env, now, turns + TurnsOf(env, p, |p.rules|), |before|, c.outcome);
      }
    } else {
      assert turns + TurnsOf(env, p, i + 1) == before;
    }
  }

  function ActivePacks(env: Env, packs: seq<Pack>): seq<Pack> {
    if packs == [] then []
    else (if MatchesActivation(env, packs[0]) then [packs[0]] else []) + ActivePacks(env, packs[1..])
  }

  lemma {:induction false} ActiveElements(env: Env, packs: seq<Pack>)
    ensures forall p :: p in ActivePacks(env, packs) <==> p in packs && MatchesActivation(env, p)
  {
    if packs != [] {
      ActiveElements(env, packs[1..]);
      assert packs == [packs[0]] + packs[1..];
    }
  }

  lemma SortedActiveSameLive(env: Env, packs: seq<Pack>)
    ensures forall p :: p in SortPacks(ActivePacks(env, packs)) <==> p in packs && MatchesActivation(env, p)
    ensures SameLive(env, packs, SortPacks(ActivePacks(env, packs)))
  {
    ActiveElements(env, packs);
    SortElements(ActivePacks(env, packs));
    SameElements(SortPacks(ActivePacks(env, packs)), ActivePacks(env, packs));
  }

  function NamesOf(ps: seq<Pack>): seq<string> {
    seq(|ps|, i requires 0 <= i < |ps| => ps[i].name)
  }

  lemma {:induction false} TurnsPrefix(env: Env, ps: seq<Pack>, i: nat, n: nat)
    requires i <= n <= |ps|
    ensures Turns(env, ps, i) <= Turns(env, ps, n)
    decreases n
  {
    if i < n {
      TurnsPrefix(env, ps, i, n - 1);
    }
  }

  /** The outer loop: all packs, or the first reason to stop. */
  method ConsiderPacks(env: Env, packs: seq<Pack>) returns (c: Considered, names: seq<string>)
    requires forall p :: p in packs ==> MatchesActivation(env, p)
    ensures c.Continue? ==> Faithful(env, Turns(env, packs, |packs|), c.acc) && names == NamesOf(packs)
    ensures c.Stop? ==> exists i: nat :: StopsAt(env, Turns(env, packs, |packs|), i, c.outcome)
  {
    var acc := EMPTY;
    names := [];
    var i := 0;
    while i < |packs|
      invariant 0 <= i <= |packs|
      invariant Faithful(env, Turns(env, packs, i), acc)
      invariant names == NamesOf(packs[..i])
    {
      names := names + [packs[i].name];
      assert names == NamesOf(packs[..i + 1]);
      c := ConsiderPack(env, packs[i], acc, Turns(env, packs, i));
      if c.Stop? {
        ghost var k: nat :| StopsAt(env, Turns(env, packs, i + 1), k, c.outcome);
        TurnsPrefix(env, packs, i + 1, |packs|);
        StopsInLonger(env, Turns(env, packs, i + 1), Turns(env, packs, |packs|), k, c.outcome);
        return;
      }
      acc := c.acc;
      i := i + 1;
    }
    assert packs[..i] == packs;
    return Continue(acc), names;
  }

  /** The order of `sorted` on limit keys. */
  predicate KeyLeq(a: (string, string), b: (string, string)) {
    if a.0 != b.0 then Leq(a.0, b.0) else Leq(a.1, b.1)
  }

  lemma KeyLeqOrder(a: (string, string), b: (string, string), c: (string, string))
    ensures KeyLeq(a, a)
    ensures KeyLeq(a, b) || KeyLeq(b, a)
    ensures KeyLeq(a, b) && KeyLeq(b, c) ==> KeyLeq(a, c)
  {
    LeqTotal(a.0, b.0);
    LeqTotal(a.1, b.1);
    LeqTotal(a.1, a.1);
    if KeyLeq(a, b) && KeyLeq(b, c) {
      if a.0 != b.0 && b.0 != c.0 {
        LessTransitive(a.0, b.0, c.0);
      } else if a.0 == b.0 == c.0 {
        LeqTransitive(a.1, b.1, c.1);
      }
    }
  }

  /** Checks the effective limits in key order and reports the first offending one. */
  method CheckLimits(env: Env, limits: Limits) returns (first: Option<(string, string)>)
    ensures first.None? <==> forall k :: k in limits ==> !Over(env, k.0, limits[k].max)
    ensures first.Some? ==>
              && first.value in limits && Over(env, first.value.0, limits[first.value].max)
              && forall k :: k in limits && Over(env, k.0, limits[k].max) ==> KeyLeq(first.value, k)
  {
    var rest := limits.Keys;
    first := None;
    while rest != {}
      invariant rest <= limits.Keys
      invariant first.None? ==> forall k :: k in limits && k !in rest ==> !Over(env, k.0, limits[k].max)
      invariant first.Some? ==>
                  && first.value in limits && Over(env, first.value.0, limits[first.value].max)
                  && forall k :: k in limits && k !in rest && Over(env, k.0, limits[k].max) ==> KeyLeq(first.value, k)
      decreases |rest|
    {
      var k :| k in rest;
      if Over(env, k.0, limits[k].max) {
        if first.None? {
          KeyLeqOrder(k, k, k);
          first := Some(k);
        } else if KeyLeq(k, first.value) {
          KeyLeqOrder(k, k, k);
          forall j ensures KeyLeq(k, first.value) && KeyLeq(first.value, j) ==> KeyLeq(k, j) {
            KeyLeqOrder(k, first.value, j);
          }
          first := Some(k);
        } else {
          KeyLeqOrder(first.value, k, k);
        }
      }
      rest := rest - {k};
    }
  }

  // ------------------------------------------------------------------ the result

  /** The rule at position `i` is the one whose limit is reported: the first with the least maximum for its key, it
    * is broken, and no broken limit has a smaller key.
    */
  ghost predicate ReportedAt(env: Env, turns: seq<Turn>, i: nat) {
    && i < |turns| && BreaksLimit(env, turns[i].rule)
    && LeastAt(env, turns, i, turns[i].rule.key.value, Lim(turns[i].rule.maxValue.value, turns[i].rule.id))
    && forall t :: t in turns && BreaksLimit(env, t.rule) ==> KeyLeq(turns[i].rule.key.value, t.rule.key.value)
  }

  ghost predicate LimitReported(env: Env, turns: seq<Turn>, names: seq<string>, r: EvalResult) {
    exists i: nat ::
      && ReportedAt(env, turns, i)
      && r == EvalResult(DENY, if turns[i].rule.key.value.0 in env.metrics then LimitExceeded else MissingMetric,
                         [turns[i].rule.id], names)
  }

  /** The whole result when no rule stops the evaluation: the first reason that holds, with all the rules and packs
    * that account for it, in their order.
    */
  ghost predicate Accounts(env: Env, turns: seq<Turn>, names: seq<string>, r: EvalResult) {
    if AllowingPacks(env, turns) != [] then r == EvalResult(ALLOW, EmergencyOverride, [], AllowingPacks(env, turns))
    else if IdsOf(env, turns, Deny) != [] then r == EvalResult(DENY, DenyRule, IdsOf(env, turns, Deny), names)
    else if exists t :: t in turns && BreaksLimit(env, t.rule) then LimitReported(env, turns, names, r)
    else if IdsOf(env, turns, RequireApproval) != [] then
      r == EvalResult(REQUIRE_APPROVAL, RequiresApproval, IdsOf(env, turns, RequireApproval), names)
    else r == EvalResult(ALLOW, Consensus, [], names)
  }

  /** The first of the effective limits that are broken is the one to report. */
  lemma FirstOfLimits(env: Env, turns: seq<Turn>, limits: Limits, k: (string, string)) returns (i: nat)
    requires LimitsFaithful(env, turns, limits) && k in limits && Over(env, k.0, limits[k].max)
    requires forall j :: j in limits && Over(env, j.0, limits[j].max) ==> KeyLeq(k, j)
    ensures ReportedAt(env, turns, i) && turns[i].rule.key == Some(k) && turns[i].rule.id == limits[k].id
  {
    i :| LeastAt(env, turns, i, k, limits[k]);
    forall t | t in turns && BreaksLimit(env, t.rule) ensures KeyLeq(k, t.rule.key.value) {
      var j :| 0 <= j < |turns| && turns[j] == t;
      var k' := t.rule.key.value;
      assert BoundsAt(env, turns, j, k');
      var m: nat :| LeastAt(env, turns, m, k', limits[k']);
      assert Over(env, k'.0, limits[k'].max);
    }
  }

  lemma KindOnTurns(env: Env, packs: seq<Pack>, turns: seq<Turn>, kind: RuleType)
    requires forall x :: IsLive(env, packs, x) <==> exists t :: t in turns && LiveOf(t) == x
    ensures (exists x :: IsLive(env, packs, x) && OfKind(env, x, kind)) <==>
              exists t :: t in turns && OfKind(env, LiveOf(t), kind)
  {
    if x :| IsLive(env, packs, x) && OfKind(env, x, kind) {
      var t :| t in turns && LiveOf(t) == x;
    }
    if t :| t in turns && OfKind(env, LiveOf(t), kind) {
      assert IsLive(env, packs, LiveOf(t));
    }
  }

  /** The declarative decision, on the turns. */
  lemma DecideOnTurns(env: Env, packs: seq<Pack>, turns: seq<Turn>)
    requires forall x :: IsLive(env, packs, x) <==> exists t :: t in turns && LiveOf(t) == x
    requires forall t :: t in turns ==> !Stopping(env, t)
    ensures Decide(env, packs) ==
              if AllowingPacks(env, turns) != [] then ALLOW
              else if IdsOf(env, turns, Deny) != [] || SomeExceeded(env, turns) then DENY
              else if IdsOf(env, turns, RequireApproval) != [] then REQUIRE_APPROVAL
              else ALLOW
  {
    assert HasOverride(env, packs) <==> AllowingPacks(env, turns) != [] by {
      SomeAllowing(env, turns);
    }
    SomeIds(env, turns, Deny);
    SomeIds(env, turns, RequireApproval);
    KindOnTurns(env, packs, turns, Deny);
    KindOnTurns(env, packs, turns, RequireApproval);
    assert HasExceeded(env, packs) <==> SomeExceeded(env, turns);
    assert !HasFatal(env, packs);
  }

  lemma BrokenIsExceeded(env: Env, turns: seq<Turn>)
    ensures SomeExceeded(env, turns) <==> exists t :: t in turns && BreaksLimit(env, t.rule)
  {
    forall t: Turn ensures Exceeded(env, LiveOf(t)) <==> BreaksLimit(env, t.rule) {
    }
  }

  /** The checks after the loops. */
  method Conclude(env: Env, acc: Acc, names: seq<string>, ghost turns: seq<Turn>, ghost packs: seq<Pack>)
      returns (o: Outcome)
    requires Faithful(env, turns, acc)
    requires forall x :: IsLive(env, packs, x) <==> exists t :: t in turns && LiveOf(t) == x
    ensures o.Returned? && o.result.decision == Decide(env, packs)
    ensures Accounts(env, turns, names, o.result)
  {
    DecideOnTurns(env, packs, turns);
    LeastLimitsSuffice(env, turns, acc.limits);
    BrokenIsExceeded(env, turns);
    if acc.emergencyPacks != [] {
      return Returned(EvalResult(ALLOW, EmergencyOverride, [], acc.emergencyPacks));
    }
    if acc.denyHits != [] {
      return Returned(EvalResult(DENY, DenyRule, acc.denyHits, names));
    }
    var first := CheckLimits(env, acc.limits);
    if first.Some? {
      ghost var i := FirstOfLimits(env, turns, acc.limits, first.value);
      var reason := if first.value.0 in env.metrics then LimitExceeded else MissingMetric;
      o := Returned(EvalResult(DENY, reason, [acc.limits[first.value].id], names));
      assert LimitReported(env, turns, names, o.result);
      return;
    }
    if acc.approvalHits != [] {
      return Returned(EvalResult(REQUIRE_APPROVAL, RequiresApproval, acc.approvalHits, names));
    }
    return Returned(EvalResult(ALLOW, Consensus, [], names));
  }

  /** `resolve`. */
  method Resolve(env: Env, packs: seq<Pack>) returns (o: Outcome)
    ensures WellFormed(env, packs) ==> o.Returned? && o.result.decision == Decide(env, packs)
    ensures o.Returned? ==> o.result.decision == Decide(env, packs)
    ensures o.Raised? ==> !WellFormed(env, packs)
    // the whole outcome: that of the first turn that stops, or the account of all of them
    ensures var turns := AllTurns(env, packs);
            || (exists i: nat :: StopsAt(env, turns, i, o))
            || (&& o.Returned? && (forall i :: 0 <= i < |turns| ==> !Stopping(env, turns[i]))
                && Accounts(env, turns, NamesOf(SortPacks(ActivePacks(env, packs))), o.result))
  {
    var sorted := SortPacks(ActivePacks(env, packs));
    SortedActiveSameLive(env, packs);
    var c, names := ConsiderPacks(env, sorted);
    forall x ensures IsLive(env, packs, x) <==> exists t :: t in AllTurns(env, packs) && LiveOf(t) == x {
      LiveHasTurn(env, packs, x);
    }
    assert AllTurns(env, packs) == Turns(env, sorted, |sorted|);
    if c.Stop? {
      StopMeans(env, packs, c.outcome);
      return c.outcome;
    }
    o := Conclude(env, c.acc, names, AllTurns(env, packs), packs);
  }

  lemma StopMeans(env: Env, packs: seq<Pack>, o: Outcome)
    requires exists i: nat :: StopsAt(env, AllTurns(env, packs), i, o)
    ensures o.Raised? ==> !WellFormed(env, packs)
    ensures o.Returned? ==> HasFatal(env, packs) && o.result.decision == DENY
  {
    var turns := AllTurns(env, packs);
    var i: nat :| StopsAt(env, turns, i, o);
    var x := LiveOf(turns[i]);
    LiveHasTurn(env, packs, x);
    assert if o.Raised? then Malformed(env, x) else Fatal(env, x);
  }
}
